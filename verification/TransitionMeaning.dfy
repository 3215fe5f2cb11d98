/** What the transition validators ask of a request, stated on the stored rows and the
    change list alone (crates/w9pt-fs-state-postgres/src/commit.rs:596-1000). */
module TransitionMeaning {
  import opened Values
  import opened Records
  import opened Requests
  import opened Effects
  import opened Loading
  import opened Transitions

  /** The change takes the stored name `e` away. */
  ghost predicate Unnames(t: Table, c: Change, e: Entry)
  {
    || (c.Delete? && c.key in t && t[c.key] == EntryRecord(e))
    || (c.MoveEntry? && Lookup(t, EntryKey(c.sourceParent, c.sourceName)) == Some(EntryRecord(e)))
  }

  /** The change deletes a stored name of `i` under `p`. */
  predicate DeletesName(t: Table, c: Change, i: InodeId, p: InodeId)
  {
    c.Delete? && c.key in t && t[c.key].EntryRecord? && t[c.key].entry.child == i && t[c.key].entry.parent == p
  }

  predicate InsertsName(c: Change, i: InodeId, p: InodeId)
  {
    c.Insert? && c.record.EntryRecord? && c.record.entry.child == i && c.record.entry.parent == p
  }

  /** The list moves the entry of `i` out of `a` into `b` with its stored cookie. */
  ghost predicate MovesName(t: Table, changes: seq<Change>, i: InodeId, a: InodeId, b: InodeId)
  {
    exists c, e :: c in changes && c.MoveEntry? && Unnames(t, c, e) && c.sourceParent == a
      && c.destination.parent == b && c.destination.child == i && c.destination.cookie == e.cookie
  }

  ghost predicate FirstDeletion(t: Table, changes: seq<Change>, x: nat, i: InodeId, a: InodeId)
  {
    && x < |changes| && DeletesName(t, changes[x], i, a)
    && forall y | 0 <= y < x :: !DeletesName(t, changes[y], i, a)
  }

  ghost predicate FirstInsertion(changes: seq<Change>, x: nat, i: InodeId, b: InodeId)
  {
    && x < |changes| && InsertsName(changes[x], i, b)
    && forall y | 0 <= y < x :: !InsertsName(changes[y], i, b)
  }

  /** The first entry of `i` deleted under `a` and the first inserted under `b` carry the
      same cookie. */
  ghost predicate Relinks(t: Table, changes: seq<Change>, i: InodeId, a: InodeId, b: InodeId)
  {
    exists x: nat, y: nat :: FirstDeletion(t, changes, x, i, a) && FirstInsertion(changes, y, i, b)
      && t[changes[x].key].entry.cookie == changes[y].record.entry.cookie
  }

  lemma {:induction false} FirstDeletedIs(t: Table, changes: seq<Change>, i: InodeId, a: InodeId) returns (x: nat)
    ensures var e := FirstDeleted(t, changes, i, a);
            if e.None? then forall y | 0 <= y < |changes| :: !DeletesName(t, changes[y], i, a)
            else FirstDeletion(t, changes, x, i, a) && e.value == t[changes[x].key].entry
    decreases |changes|
  {
    x := 0;
    if changes != [] && !DeletesName(t, changes[0], i, a) {
      x := FirstDeletedIs(t, changes[1..], i, a);
      x := x + 1;
      assert forall y | 0 < y < |changes| :: changes[y] == changes[1..][y - 1];
    }
  }

  lemma {:induction false} FirstInsertedIs(changes: seq<Change>, i: InodeId, b: InodeId) returns (x: nat)
    ensures var e := FirstInserted(changes, i, b);
            if e.None? then forall y | 0 <= y < |changes| :: !InsertsName(changes[y], i, b)
            else FirstInsertion(changes, x, i, b) && e.value == changes[x].record.entry
    decreases |changes|
  {
    x := 0;
    if changes != [] && !InsertsName(changes[0], i, b) {
      x := FirstInsertedIs(changes[1..], i, b);
      x := x + 1;
      assert forall y | 0 < y < |changes| :: changes[y] == changes[1..][y - 1];
    }
  }

  /** Two first positions are the same. */
  lemma RelinksOnce(t: Table, changes: seq<Change>, i: InodeId, a: InodeId, b: InodeId)
    ensures var d, e := FirstDeleted(t, changes, i, a), FirstInserted(changes, i, b);
            Relinks(t, changes, i, a, b) <==> d.Some? && e.Some? && d.value.cookie == e.value.cookie
  {
    hide FirstDeleted, FirstInserted;
    var x := FirstDeletedIs(t, changes, i, a);
    var y := FirstInsertedIs(changes, i, b);
    if Relinks(t, changes, i, a, b) {
      var x': nat, y': nat :| FirstDeletion(t, changes, x', i, a) && FirstInsertion(changes, y', i, b)
        && t[changes[x'].key].entry.cookie == changes[y'].record.entry.cookie;
      assert DeletesName(t, changes[x'], i, a) && InsertsName(changes[y'], i, b);
      assert x' == x && y' == y;
    }
  }

  /** A directory row may get parent `b` in place of `a` exactly when its name goes along:
      moved with its stored cookie, or deleted and inserted with one cookie. */
  lemma ParentChangeMeans(t: Table, changes: seq<Change>, current: Inode, next: Inode)
    requires current.data.DirectoryData? && next.data.DirectoryData?
    ensures var i, a, b := current.id, current.data.parent, next.data.parent;
            ParentChangeOk(t, changes, current, next) <==>
              a == b || MovesName(t, changes, i, a, b) || Relinks(t, changes, i, a, b)
  {
    hide FirstDeleted, FirstInserted, Relinks;
    var i, a, b := current.id, current.data.parent, next.data.parent;
    RelinksOnce(t, changes, i, a, b);
    MovesNameMeans(t, changes, i, a, b);
  }

  lemma MovesNameMeans(t: Table, changes: seq<Change>, i: InodeId, a: InodeId, b: InodeId)
    ensures MovesName(t, changes, i, a, b) <==>
      exists c :: c in changes && c.MoveEntry? && Freed(t, c).Some? && c.sourceParent == a
        && c.destination.parent == b && c.destination.child == i && c.destination.cookie == Freed(t, c).value.cookie
  {
    forall c: Change, e | c.MoveEntry? ensures Unnames(t, c, e) <==> Freed(t, c) == Some(e) {
    }
  }

  // ------------------------------------------------------------- monotonicity

  /** The change adds, rewrites or takes away a name under directory `p`. */
  ghost predicate ChangesNames(t: Table, c: Change, p: InodeId)
  {
    NamesUnder(c, p) && (c.Delete? ==> c.key in t)
  }

  ghost predicate NamesChange(t: Table, changes: seq<Change>, p: InodeId)
  {
    exists c :: c in changes && ChangesNames(t, c, p)
  }

  /** The list moves the generation of directory `p` one up. */
  ghost predicate Advanced(t: Table, changes: seq<Change>, p: InodeId)
  {
    || BumpDirectoryGeneration(p) in changes
    || exists n :: Replace(InodeKey(p), InodeRecord(n)) in changes && n.data.DirectoryData? && IsDirectory(t, p)
         && n.data.generation == InodeAt(t, p).value.data.generation + 1 <= U64_MAX
  }

  /** What a replaced inode may become: the same kind and content, one inode generation
      on; a directory one directory generation on exactly when its names change, and under
      another parent only with its name. */
  ghost predicate InodeStep(t: Table, changes: seq<Change>, a: Inode, b: Inode)
  {
    && b.inodeGeneration == a.inodeGeneration + 1 <= U64_MAX
    && match (a.data, b.data)
       case (RegularData(file, content, _), RegularData(file', content', _)) => file == file' && content == content'
       case (DirectoryData(g, p), DirectoryData(g', p')) =>
         && (if NamesChange(t, changes, a.id) then g' == g + 1 <= U64_MAX else g' == g)
         && (p == p' || MovesName(t, changes, a.id, p, p') || Relinks(t, changes, a.id, p, p'))
       case (SymlinkData(_), SymlinkData(_)) => true
       case (CharacterData(_, _), CharacterData(_, _)) => true
       case (BlockData(_, _), BlockData(_, _)) => true
       case (FifoData, FifoData) => true
       case (SocketData, SocketData) => true
       case _ => false
  }

  /** What a replaced row may become. */
  ghost predicate RowStep(t: Table, changes: seq<Change>, c: Change)
  {
    c.Replace? && c.key in t ==>
      match (t[c.key], c.record)
      case (FilesystemRecord(a), FilesystemRecord(b)) => b == a.(revision := b.revision)
      case (InodeRecord(a), InodeRecord(b)) => InodeStep(t, changes, a, b)
      case (EntryRecord(a), EntryRecord(b)) => b.parent == a.parent && b.cookie == a.cookie
      case (OrphanRecord(a), OrphanRecord(b)) => b.orphanedRevision == a.orphanedRevision
      case (LockRecord(a), LockRecord(b)) => b.generation == a.generation + 1 <= U64_MAX
      case _ => true
  }

  lemma RenamesMeans(t: Table, c: Change, m: MutationContext, p: InodeId)
    requires WellKeyed(t) && ShapeError(c, m).None?
    ensures Renames(t, c, p) <==> ChangesNames(t, c, p)
  {
    hide NamesUnder;
    NamesUnderIs(c, p);
    if c.Delete? && c.key in t {
      assert Names(t[c.key], c.key);
    }
  }

  lemma ParentsMean(t: Table, changes: seq<Change>, m: MutationContext, p: InodeId)
    requires WellKeyed(t) && WellShaped(changes, m)
    ensures p in Parents(t, changes) <==> NamesChange(t, changes, p)
  {
    hide ChangesNames, Renames, ShapeError, Parents;
    ParentsAre(t, changes, p);
    forall c | c in changes ensures Renames(t, c, p) <==> ChangesNames(t, c, p) {
      RenamesMeans(t, c, m, p);
    }
  }

  lemma AdvancedMeans(t: Table, changes: seq<Change>, p: InodeId)
    ensures SomeAdvances(t, changes, p) <==> Advanced(t, changes, p)
  {
    if c :| c in changes && AdvancesDirectory(t, c, p) {
      if c.Replace? {
        assert c == Replace(InodeKey(p), InodeRecord(c.record.node));
      }
    }
    if Advanced(t, changes, p) && BumpDirectoryGeneration(p) !in changes {
      var n :| Replace(InodeKey(p), InodeRecord(n)) in changes && n.data.DirectoryData? && IsDirectory(t, p)
               && n.data.generation == InodeAt(t, p).value.data.generation + 1 <= U64_MAX;
      assert AdvancesDirectory(t, Replace(InodeKey(p), InodeRecord(n)), p);
    } else if Advanced(t, changes, p) {
      assert AdvancesDirectory(t, BumpDirectoryGeneration(p), p);
    }
  }

  lemma InodeStepMeans(t: Table, changes: seq<Change>, parents: set<InodeId>, a: Inode, b: Inode)
    requires a.id in parents <==> NamesChange(t, changes, a.id)
    ensures InodeStep(t, changes, a, b) <==>
      && Kind(a.data) == Kind(b.data)
      && CheckedNext(a.inodeGeneration) == Some(b.inodeGeneration)
      && Content(a) == Content(b) && ContentFile(a) == ContentFile(b)
      && DirectoryStepOk(a, b, a.id in parents)
      && ParentChangeOk(t, changes, a, b)
  {
    hide MovesName, Relinks, NamesChange;
    if a.data.DirectoryData? && b.data.DirectoryData? {
      hide ParentChangeOk;
      ParentChangeMeans(t, changes, a, b);
    }
  }

  lemma RowStepMeans(t: Table, changes: seq<Change>, m: MutationContext, c: Change)
    requires WellKeyed(t) && WellShaped(changes, m)
    ensures ReplacementOk(t, changes, Parents(t, changes), c) <==> RowStep(t, changes, c)
  {
    hide InodeStep, Parents, WellShaped, ParentChangeOk, DirectoryStepOk, NamesChange, WellKeyed;
    if c.Replace? && c.key in t && t[c.key].InodeRecord? && c.record.InodeRecord? {
      ParentsMean(t, changes, m, t[c.key].node.id);
      InodeStepMeans(t, changes, Parents(t, changes), t[c.key].node, c.record.node);
    }
  }

  /** In a guarded request the replacement of a directory row that is otherwise in step
      may change its parent from `a` to `b` exactly when the list moves its entry out of
      `a` into `b` with the stored cookie, or the first entry of it deleted under `a` and
      the first inserted under `b` have one cookie. */
  lemma ReparentIff(t: Table, q: Request, i: InodeId, n: Inode)
    requires WellKeyed(t) && WellShaped(q.changes, q.mutation) && IsDirectory(t, i)
    requires Replace(InodeKey(i), InodeRecord(n)) in q.changes && n.data.DirectoryData?
    requires n.data.parent != InodeAt(t, i).value.data.parent
    requires InodeStep(t, q.changes, InodeAt(t, i).value,
                       n.(data := n.data.(parent := InodeAt(t, i).value.data.parent)))
    ensures var loaded := Loaded(t, q);
            var a, b := InodeAt(t, i).value.data.parent, n.data.parent;
            ReplacementOk(loaded, q.changes, Parents(loaded, q.changes), Replace(InodeKey(i), InodeRecord(n)))
            <==> MovesName(t, q.changes, i, a, b) || Relinks(t, q.changes, i, a, b)
  {
    hide WellShaped, Parents, ReplacementOk, NamesChange, Agree, MovesName, Relinks;
    var c := Replace(InodeKey(i), InodeRecord(n));
    assert Names(t[InodeKey(i)], InodeKey(i));
    LoadedAgrees(t, q);
    ReplacementAgrees(Loaded(t, q), t, q.changes, c);
    RowStepMeans(t, q.changes, q.mutation, c);
  }

  /** `validate_monotonic_transitions` accepts a guarded request exactly when every
      directory whose names change has its generation moved up, and every replaced row
      steps as it may. */
  lemma MonotonicMeans(t: Table, q: Request)
    requires WellKeyed(t) && WellShaped(q.changes, q.mutation)
    ensures MonotonicOk(Loaded(t, q), q.changes) <==>
      (Guarded(t, q) ==>
         && (forall p | NamesChange(t, q.changes, p) :: Advanced(t, q.changes, p))
         && (forall c | c in q.changes :: RowStep(t, q.changes, c)))
  {
    hide WellShaped, Parents, ReplacementOk, SomeAdvances, RowStep, Advanced, NamesChange, WellKeyed, Agree;
    LoadedAgrees(t, q);
    if Guarded(t, q) {
      ParentsAgree(Loaded(t, q), t, q.changes);
      forall p ensures p in Parents(t, q.changes) <==> NamesChange(t, q.changes, p) {
        ParentsMean(t, q.changes, q.mutation, p);
      }
      forall p ensures SomeAdvances(Loaded(t, q), q.changes, p) <==> Advanced(t, q.changes, p) {
        AdvancesAgree(Loaded(t, q), t, q.changes, p);
        AdvancedMeans(t, q.changes, p);
      }
      forall c | c in q.changes
        ensures ReplacementOk(Loaded(t, q), q.changes, Parents(Loaded(t, q), q.changes), c)
                <==> RowStep(t, q.changes, c)
      {
        ReplacementAgrees(Loaded(t, q), t, q.changes, c);
        RowStepMeans(t, q.changes, q.mutation, c);
      }
    }
  }

  lemma LoadedAgrees(t: Table, q: Request)
    requires WellShaped(q.changes, q.mutation)
    ensures Agree(Loaded(t, q), t, q.changes)
    ensures Guarded(t, q) ==> Lookup(Loaded(t, q), FilesystemKey) == Lookup(t, FilesystemKey)
  {
    LoadedCoversTargets(t, q);
  }

  // ------------------------------------------------- cookies and QID paths

  /** The inserted name takes over a stored one that the list takes away. */
  ghost predicate TakesOver(t: Table, changes: seq<Change>, e: Entry)
  {
    exists c, was :: c in changes && Unnames(t, c, was) && was.cookie == e.cookie && was.child == e.child
  }

  /** Inserted names that take over no cookie need a new one; a move keeps cookie and
      child of the stored entry, a replaced entry its cookie, a replaced inode its path. */
  lemma IdentitiesMean(t: Table, q: Request, c: Change)
    requires WellKeyed(t) && WellShaped(q.changes, q.mutation) && c in q.changes
    ensures NeedsCookie(Loaded(t, q), q.changes, c) <==>
      c.Insert? && c.record.EntryRecord? && !TakesOver(t, q.changes, c.record.entry)
    ensures KeepsCookie(Loaded(t, q), c) <==>
      && (c.MoveEntry? ==>
            exists was :: Unnames(t, c, was) && was.cookie == c.destination.cookie && was.child == c.destination.child)
      && (c.Replace? && c.key in t && t[c.key].EntryRecord? && c.record.EntryRecord? ==>
            c.record.entry.cookie == t[c.key].entry.cookie)
    ensures KeepsQid(Loaded(t, q), c) <==>
      (c.Replace? && c.key in t && t[c.key].InodeRecord? && c.record.InodeRecord? ==>
         c.record.node.qidPath == t[c.key].node.qidPath)
  {
    hide Agree, WellShaped, WellKeyed;
    LoadedAgrees(t, q);
    NeedsCookieAgrees(Loaded(t, q), t, q.changes, c);
    FreedAgrees(Loaded(t, q), t, q.changes, c);
    TakesOverMeans(t, q.changes);
    FreedMeans(t, c);
    if c.Replace? {
      ReplacedAgrees(Loaded(t, q), t, q.changes, c);
    }
  }

  lemma FreedMeans(t: Table, c: Change)
    ensures forall e :: Unnames(t, c, e) <==> Freed(t, c) == Some(e)
  {
  }

  lemma TakesOverMeans(t: Table, changes: seq<Change>)
    ensures forall e :: TakesOver(t, changes, e) <==> Transfers(t, changes, e)
  {
    hide Freed, Unnames;
    forall c ensures forall e :: Unnames(t, c, e) <==> Freed(t, c) == Some(e) {
      FreedMeans(t, c);
    }
    forall e | Transfers(t, changes, e) ensures TakesOver(t, changes, e) {
      var c :| c in changes && Freed(t, c).Some? && SameLink(Freed(t, c).value, e);
      assert Unnames(t, c, Freed(t, c).value);
    }
  }

  // -------------------------------------------------------- attribute staging

  /** A published staging is stored, complete and of the named attribute; a deleted one
      is not at the same time written as an attribute. */
  ghost predicate StagingStep(t: Table, changes: seq<Change>, c: Change)
  {
    match c
    case PublishXattrStaging(s, i, n) =>
      exists staged :: Lookup(t, XattrStagingKey(s)) == Some(XattrStagingRecord(staged))
        && staged.inode == i && staged.name == n && |staged.bytes| == staged.expectedSize
    case Delete(XattrStagingKey(s)) =>
      forall staged, d | Lookup(t, XattrStagingKey(s)) == Some(XattrStagingRecord(staged)) && d in changes
        :: !Touches(d, XattrKey(staged.inode, staged.name)) || d.Delete? || d.PublishXattrStaging?
    case _ => true
  }

  lemma StagingMeans(t: Table, q: Request)
    requires WellShaped(q.changes, q.mutation)
    ensures XattrsOk(Loaded(t, q), q.changes) <==> forall c | c in q.changes :: StagingStep(t, q.changes, c)
  {
    hide Agree, StagingOk, StagingStep;
    LoadedAgrees(t, q);
    forall c | c in q.changes ensures StagingOk(Loaded(t, q), q.changes, c) <==> StagingStep(t, q.changes, c) {
      OneStagingMeans(t, q, c);
    }
  }

  lemma OneStagingMeans(t: Table, q: Request, c: Change)
    requires WellShaped(q.changes, q.mutation) && c in q.changes && Agree(Loaded(t, q), t, q.changes)
    ensures StagingOk(Loaded(t, q), q.changes, c) <==> StagingStep(t, q.changes, c)
  {
    hide Loaded;
    if c.PublishXattrStaging? {
      assert Touches(c, XattrStagingKey(c.staging));
    } else if c.Delete? && c.key.XattrStagingKey? {
      assert Touches(c, c.key);
      forall d, staged: XattrStaging | d in q.changes
        ensures PublishesXattr(d, staged) <==>
          Touches(d, XattrKey(staged.inode, staged.name)) && !d.Delete? && !d.PublishXattrStaging?
      {
        PublishesMeans(d, q.mutation, staged);
      }
    }
  }

  lemma PublishesMeans(d: Change, m: MutationContext, staged: XattrStaging)
    requires ShapeError(d, m).None?
    ensures PublishesXattr(d, staged) <==>
      Touches(d, XattrKey(staged.inode, staged.name)) && !d.Delete? && !d.PublishXattrStaging?
  {
  }
}
