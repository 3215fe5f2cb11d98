/** The directory generation as a version stamp of the names under a directory
    (crates/w9pt-fs-state-postgres/src/commit.rs:748-855, 1255-1285). */
module DirectoryStamp {
  import opened Records
  import opened Requests
  import opened Applying
  import opened Effects
  import opened Loading
  import opened Transitions
  import opened LockTable
  import opened Targeting
  import opened Admission
  import opened Namespace

  /** The names under `d` with their cookie and child. */
  ghost function Listing(t: Table, d: InodeId): map<Key, (nat, InodeId)>
  {
    map k | k in t && k.EntryKey? && k.parent == d && t[k].EntryRecord?
      :: (t[k].entry.cookie, t[k].entry.child)
  }

  function Generation(t: Table, d: InodeId): nat
    requires IsDirectory(t, d)
  {
    InodeAt(t, d).value.data.generation
  }

  /** The stamp never falls, and rises when the listing changes. */
  ghost predicate Stamped(t: Table, t': Table, d: InodeId)
    requires IsDirectory(t, d) && IsDirectory(t', d)
  {
    Generation(t, d) <= Generation(t', d)
    && (Listing(t, d) != Listing(t', d) ==> Generation(t, d) < Generation(t', d))
  }

  /** An unguarded request brings no directory row with a lower generation. */
  ghost predicate StampGuard(t: Table, q: Request, d: InodeId)
    requires IsDirectory(t, d)
  {
    !Guarded(t, q) ==>
      forall c | c in q.changes && c.Replace? && c.key == InodeKey(d)
                 && c.record.InodeRecord? && c.record.node.data.DirectoryData?
        :: Generation(t, d) <= c.record.node.data.generation
  }

  /** What one change does to the generation of a row that stays a directory. */
  lemma GenerationWrite(t: Table, c: Change, q: Request, revision: Revision, d: InodeId)
    requires ShapeError(c, q.mutation).None? && Admits(t, c, q) && Touches(c, InodeKey(d))
    requires IsDirectory(t, d)
    requires var now := Value(Writes(t, t, c, revision), InodeKey(d));
             now.Some? && now.value.InodeRecord? && now.value.node.data.DirectoryData?
    ensures var now := Value(Writes(t, t, c, revision), InodeKey(d)).value.node.data.generation;
            || (!c.Replace? && (now == Generation(t, d) || now == Generation(t, d) + 1))
            || (c.Replace? && c.record.InodeRecord? && c.record.node.data.DirectoryData?
                && now == c.record.node.data.generation)
    ensures c.BumpDirectoryGeneration? ==>
              Value(Writes(t, t, c, revision), InodeKey(d)).value.node.data.generation == Generation(t, d) + 1
  {
  }

  /** A changed listing means some change renames under the directory. */
  lemma ChangedListing(t: Table, q: Request, revision: Revision, t': Table, d: InodeId)
    requires Stepped(t, q, revision, t') && Listing(t, d) != Listing(t', d)
    ensures exists c :: c in q.changes && Renames(Loaded(t, q), c, d) && NamespaceChange(c)
  {
    var k: Key :| k.EntryKey? && k.parent == d && Lookup(t', k) != Lookup(t, k);
    var c := ChangedEntry(t, q, revision, t', k);
    RenameOf(t, Loaded(t, q), c, q, k);
  }

  lemma RenameOf(t: Table, loaded: Table, c: Change, q: Request, k: Key)
    requires ShapeError(c, q.mutation).None? && Admits(t, c, q) && Touches(c, k) && k.EntryKey?
    requires k in t ==> Names(t[k], k)
    requires Lookup(loaded, k) == Lookup(t, k)
    ensures Renames(loaded, c, k.parent) && NamespaceChange(c)
  {
  }

  lemma AdvanceRaises(t: Table, loaded: Table, c: Change, q: Request, revision: Revision, d: InodeId)
    requires ShapeError(c, q.mutation).None? && Admits(t, c, q) && AdvancesDirectory(loaded, c, d)
    requires IsDirectory(t, d) && Lookup(loaded, InodeKey(d)) == Lookup(t, InodeKey(d))
    ensures Touches(c, InodeKey(d)) && !Allocates(c)
    ensures var now := Value(Writes(t, t, c, revision), InodeKey(d));
            now.Some? && now.value.InodeRecord? && now.value.node.data.DirectoryData?
            && now.value.node.data.generation == Generation(t, d) + 1
  {
  }

  lemma RenamedRises(t: Table, q: Request, revision: Revision, t': Table, d: InodeId)
    requires Stepped(t, q, revision, t') && TransitionsOk(Loaded(t, q), q.changes)
    requires Guarded(t, q) && NamespaceParent(Loaded(t, q), q.changes, d)
    requires IsDirectory(t, d) && IsDirectory(t', d)
    ensures Generation(t', d) == Generation(t, d) + 1
  {
    var loaded := Loaded(t, q);
    ParentsAre(loaded, q.changes, d);
    assert SomeAdvances(loaded, q.changes, d);
    var c :| c in q.changes && AdvancesDirectory(loaded, c, d);
    assert Touches(c, InodeKey(d));
    AdvanceRaises(t, loaded, c, q, revision, d);
    assert Lookup(t', InodeKey(d)) == Value(Writes(t, t, c, revision), InodeKey(d));
  }

  lemma GenerationKept(t: Table, q: Request, revision: Revision, t': Table, d: InodeId)
    requires Stepped(t, q, revision, t') && TransitionsOk(Loaded(t, q), q.changes)
    requires IsDirectory(t, d) && IsDirectory(t', d) && StampGuard(t, q, d)
    ensures Generation(t, d) <= Generation(t', d)
  {
    hide TransitionsOk, Guarded, Stepped, Writes, Admits, ShapeError, Loaded;
    var k := InodeKey(d);
    if c :| c in q.changes && Touches(c, k) {
      ChangeAt(t, q, revision, t', c, k);
      GenerationWrite(t, c, q, revision, d);
      if Guarded(t, q) {
        LoadedReplacementOk(t, q, c);
      }
    } else {
      UntouchedKept(t, q, revision, t', k);
    }
  }

  /** Where a header exists, an accepted request respects the stamp of a directory
      that stays one exactly under the caller condition. */
  lemma StampedIffGuard(t: Table, q: Request, revision: Revision, depth: nat, t': Table, d: InodeId)
    requires WellKeyed(t) && Admitted(t, q, revision, depth, t') && HeaderAt(t).Some?
    requires IsDirectory(t, d) && IsDirectory(t', d)
    ensures Stamped(t, t', d) <==> StampGuard(t, q, d)
  {
    hide Admitted, PreflightOk, TransitionsOk, LocksOk, TargetedOk, DistinctTargets, ApplyAll, Listing;
    AdmittedSteps(t, q, revision, depth, t');
    AdmittedParts(t, q, revision, depth, t');
    hide Stepped, Guarded, Renames;
    if StampGuard(t, q, d) {
      GenerationKept(t, q, revision, t', d);
      if Listing(t, d) != Listing(t', d) {
        ChangedListing(t, q, revision, t', d);
        var c :| c in q.changes && Renames(Loaded(t, q), c, d) && NamespaceChange(c);
        NamespaceIsGuarded(t, q, c);
        RenamedRises(t, q, revision, t', d);
      }
    } else {
      var c :| c in q.changes && c.Replace? && c.key == InodeKey(d) && c.record.InodeRecord?
               && c.record.node.data.DirectoryData? && c.record.node.data.generation < Generation(t, d);
      ReplacedGeneration(t, q, revision, t', c, d);
    }
  }

  lemma ReplacedGeneration(t: Table, q: Request, revision: Revision, t': Table, c: Change, d: InodeId)
    requires Stepped(t, q, revision, t') && c in q.changes && c.Replace? && c.key == InodeKey(d)
    requires c.record.InodeRecord? && c.record.node.data.DirectoryData?
    ensures IsDirectory(t', d) && Generation(t', d) == c.record.node.data.generation
  {
    assert Touches(c, c.key) && Lookup(t', c.key) == Value(Writes(t, t, c, revision), c.key);
  }

  // ------------------------------------------------------- inode generation

  /** The inode row changed means its generation rose by one. */
  ghost predicate InodeStamped(t: Table, t': Table, i: InodeId)
    requires InodeAt(t, i).Some? && InodeAt(t', i).Some?
  {
    InodeAt(t', i) != InodeAt(t, i) ==>
      InodeAt(t', i).value.inodeGeneration == InodeAt(t, i).value.inodeGeneration + 1
  }

  /** An unguarded replacement moves the inode generation by one. */
  ghost predicate InodeStampGuard(t: Table, q: Request, i: InodeId)
    requires InodeAt(t, i).Some?
  {
    !Guarded(t, q) ==>
      forall c | c in q.changes && c.Replace? && c.key == InodeKey(i) && c.record.InodeRecord?
        :: c.record.node.inodeGeneration == InodeAt(t, i).value.inodeGeneration + 1
  }

  lemma InodeGenerationWrite(t: Table, c: Change, q: Request, revision: Revision, i: InodeId)
    requires ShapeError(c, q.mutation).None? && Admits(t, c, q) && Touches(c, InodeKey(i))
    requires InodeAt(t, i).Some? && Value(Writes(t, t, c, revision), InodeKey(i)).Some?
    ensures !Allocates(c)
    ensures var now := Value(Writes(t, t, c, revision), InodeKey(i)).value;
            now.InodeRecord? &&
            now.node.inodeGeneration == if c.Replace? && c.record.InodeRecord? then c.record.node.inodeGeneration
                                        else InodeAt(t, i).value.inodeGeneration + 1
    ensures c.Replace? ==> c.record.InodeRecord? && c.key == InodeKey(i)
  {
  }

  /** An accepted request that keeps an inode changes its row exactly under a new
      generation, one above the old, if and only if its unguarded replacements do. */
  lemma InodeStampIffGuard(t: Table, q: Request, revision: Revision, depth: nat, t': Table, i: InodeId)
    requires WellKeyed(t) && Admitted(t, q, revision, depth, t')
    requires InodeAt(t, i).Some? && InodeAt(t', i).Some? && InodeAt(t, i).value.revision < revision
    ensures InodeStamped(t, t', i) <==> InodeStampGuard(t, q, i)
  {
    hide Admitted, PreflightOk, TransitionsOk, LocksOk, TargetedOk, DistinctTargets, ApplyAll, Guarded, Loaded;
    hide Writes;
    AdmittedSteps(t, q, revision, depth, t');
    AdmittedParts(t, q, revision, depth, t');
    var k := InodeKey(i);
    if c :| c in q.changes && Touches(c, k) {
      WrittenGeneration(t, q, revision, t', c, i);
      if c.Replace? {
        ReplacedInodeStamp(t, q, c, i);
      }
      RowRevised(t, q, revision, t', c, i);
      forall d | d in q.changes && d.Replace? && d.key == k && d.record.InodeRecord?
        ensures d.record.node.inodeGeneration == InodeAt(t', i).value.inodeGeneration
      {
        assert Touches(d, k);
        WrittenGeneration(t, q, revision, t', d, i);
      }
    } else {
      assert Lookup(t', k) == Lookup(t, k);
      forall d | d in q.changes && d.Replace? ensures d.key != k {
        assert Touches(d, d.key);
      }
    }
  }

  lemma WrittenGeneration(t: Table, q: Request, revision: Revision, t': Table, c: Change, i: InodeId)
    requires Stepped(t, q, revision, t') && c in q.changes && Touches(c, InodeKey(i))
    requires InodeAt(t, i).Some? && InodeAt(t', i).Some?
    ensures InodeAt(t', i).value.inodeGeneration ==
            if c.Replace? && c.record.InodeRecord? then c.record.node.inodeGeneration
            else InodeAt(t, i).value.inodeGeneration + 1
    ensures c.Replace? ==> c.record.InodeRecord? && c.key == InodeKey(i)
  {
    assert !Allocates(c);
    assert Lookup(t', InodeKey(i)) == Value(Writes(t, t, c, revision), InodeKey(i));
    InodeGenerationWrite(t, c, q, revision, i);
  }

  lemma RowRevised(t: Table, q: Request, revision: Revision, t': Table, c: Change, i: InodeId)
    requires Stepped(t, q, revision, t') && c in q.changes && Touches(c, InodeKey(i)) && InodeAt(t', i).Some?
    ensures InodeAt(t', i).value.revision == revision
  {
    hide Stepped, WellKeyed, WellShaped, Written, Writes;
    SteppedParts(t, q, revision, t');
    assert Touched(q.changes, InodeKey(i));
    TouchedIsStamped(t, q.changes, q.mutation, revision, t', InodeKey(i));
  }

  lemma ReplacedInodeStamp(t: Table, q: Request, c: Change, i: InodeId)
    requires TransitionsOk(Loaded(t, q), q.changes) && LoadedFrom(t, Loaded(t, q), q.changes)
    requires c in q.changes && c.Replace? && c.key == InodeKey(i) && c.record.InodeRecord? && InodeAt(t, i).Some?
    ensures Guarded(t, q) ==> c.record.node.inodeGeneration == InodeAt(t, i).value.inodeGeneration + 1
  {
    if Guarded(t, q) {
      LoadedReplacementOk(t, q, c);
      assert Touches(c, c.key) && Lookup(Loaded(t, q), c.key) == Lookup(t, c.key);
    }
  }

  // ------------------------------------------------------- other kept fields

  /** What a guarded request keeps of a row it changes in place. */
  predicate KeptFields(a: Record, b: Record)
  {
    && (a.LockRecord? && b.LockRecord? ==> a == b || b.lock.generation == a.lock.generation + 1)
    && (a.OrphanRecord? && b.OrphanRecord? ==> a.orphan.orphanedRevision == b.orphan.orphanedRevision)
  }

  lemma RowWriteKeeps(t: Table, c: Change, q: Request, revision: Revision, k: Key)
    requires ShapeError(c, q.mutation).None? && Admits(t, c, q) && Touches(c, k) && !Allocates(c)
    requires k in t && Names(t[k], k) && (k.LockKey? || k.OrphanKey?)
    requires Value(Writes(t, t, c, revision), k).Some?
    requires c.Replace? && c.key == k ==> KeptFields(t[k], c.record)
    requires c.Replace? && c.record.LockRecord? && t[k].LockRecord? ==>
               c.record.lock.generation == t[k].lock.generation + 1
    ensures KeptFields(t[k], Value(Writes(t, t, c, revision), k).value)
  {
  }

  /** In a guarded request a lock row changes only under the next lock generation, and
      an orphan keeps the revision it was orphaned at. */
  lemma GuardedKeepsFields(t: Table, q: Request, revision: Revision, t': Table, k: Key)
    requires Stepped(t, q, revision, t') && TransitionsOk(Loaded(t, q), q.changes) && Guarded(t, q)
    requires k in t && k in t' && (k.LockKey? || k.OrphanKey?)
    ensures KeptFields(t[k], t'[k])
  {
    hide TransitionsOk, Guarded, Loaded, Writes;
    if c :| c in q.changes && Touches(c, k) {
      LoadedReplacementOk(t, q, c);
      assert Names(t[k], k) && Lookup(Loaded(t, q), k) == Lookup(t, k);
      assert Lookup(t', k) == Value(Writes(t, t, c, revision), k);
      RowWriteKeeps(t, c, q, revision, k);
    } else {
      assert Lookup(t', k) == Lookup(t, k);
    }
  }
}
