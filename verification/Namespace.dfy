/** The directory tree: checks on targeted inodes keep the whole namespace a tree
    (crates/w9pt-fs-state-postgres/src/commit.rs:1548-2120). */
module Namespace {
  import opened Records
  import opened Requests
  import opened Applying
  import opened Effects
  import opened Loading
  import opened Transitions
  import opened LockTable
  import opened Targeting
  import opened Admission

  // ------------------------------------------------------------- the tree

  ghost predicate RootPlaced(t: Table, root: InodeId)
  {
    && IsDirectory(t, root)
    && InodeAt(t, root).value.data.parent == root
    && EntriesTo(t, root) == {}
  }

  /** A live directory has one entry, in its parent, and reaches the root; an
      orphan directory has no entries; any other inode counts its entries. */
  ghost predicate NodePlaced(t: Table, root: InodeId, n: Inode)
  {
    if !n.data.DirectoryData? then |EntriesTo(t, n.id)| == n.linkCount
    else if n.linkCount == 0 then EntriesTo(t, n.id) == {} && EntriesIn(t, n.id) == {}
    else
      && IsDirectory(t, n.data.parent)
      && |EntriesTo(t, n.id)| == 1 && EntriesTo(t, n.id) <= EntriesIn(t, n.data.parent)
      && Reaches(t, n.id, root)
  }

  ghost predicate EntryPlaced(t: Table, k: Key)
  {
    k in t && k.EntryKey? ==>
      IsDirectory(t, k.parent) && t[k].EntryRecord? && InodeAt(t, t[k].entry.child).Some?
  }

  /** The whole record table describes one rooted tree. */
  ghost predicate Tree(t: Table)
  {
    HeaderAt(t).Some? &&
    var root := HeaderAt(t).value.root;
    && RootPlaced(t, root)
    && (forall i | InodeAt(t, i).Some? && i != root :: NodePlaced(t, root, InodeAt(t, i).value))
    && (forall k :: EntryPlaced(t, k))
  }

  // ----------------------------------------------------- caller conditions

  /** `c` puts another entry in the place of one naming `i`. */
  predicate Overwrites(t: Table, c: Change, i: InodeId)
  {
    || (c.MoveEntry? && DestinationKey(c) in t && t[DestinationKey(c)].EntryRecord?
        && t[DestinationKey(c)].entry.child == i)
    || (c.Replace? && c.key.EntryKey? && c.key in t && t[c.key].EntryRecord?
        && t[c.key].entry.child == i)
  }

  /** `c` turns a directory that still has names into something else. */
  predicate DemotesNonEmpty(t: Table, c: Change)
  {
    && c.Replace? && c.key.InodeKey? && IsDirectory(t, c.key.inode)
    && c.record.InodeRecord? && !c.record.node.data.DirectoryData?
    && EntriesIn(t, c.key.inode) != {}
  }

  ghost predicate OverwrittenTargeted(t: Table, q: Request)
  {
    forall c, i | c in q.changes && Overwrites(t, c, i) :: TargetsInode(Loaded(t, q), q.changes, i)
  }

  /** The caller-side condition under which the tree survives. */
  ghost predicate TreeGuard(t: Table, q: Request)
  {
    && Delete(FilesystemKey) !in q.changes
    && OverwrittenTargeted(t, q)
    && (!Guarded(t, q) ==> forall c | c in q.changes :: !DemotesNonEmpty(t, c))
  }

  // ------------------------------------------------------- locality lemmas

  /** An inode no change targets keeps its row. */
  lemma UntargetedInode(t: Table, q: Request, revision: Revision, t': Table, i: InodeId)
    requires Stepped(t, q, revision, t')
    requires !TargetsInode(Loaded(t, q), q.changes, i)
    ensures Lookup(t', InodeKey(i)) == Lookup(t, InodeKey(i))
  {
    hide Stepped, Loaded, ChangeInodes;
    var k := InodeKey(i);
    if c :| c in q.changes && Touches(c, k) {
      ChangeAt(t, q, revision, t', c, k);
      InodeTouchTargets(Loaded(t, q), c, q.mutation, i);
    } else {
      UntouchedKept(t, q, revision, t', k);
    }
  }

  lemma InodeTouchTargets(loaded: Table, c: Change, mutation: MutationContext, i: InodeId)
    requires ShapeError(c, mutation).None? && Touches(c, InodeKey(i))
    ensures i in ChangeInodes(loaded, c)
  {
  }

  /** A change that writes an entry targets the parent, the child it writes, and
      the child it finds unless it overwrites. */
  lemma EntryWriteTargets(t: Table, loaded: Table, c: Change, q: Request, revision: Revision, k: Key)
    requires ShapeError(c, q.mutation).None? && Admits(t, c, q) && Touches(c, k) && k.EntryKey?
    requires k in t ==> Names(t[k], k)
    requires Lookup(loaded, k) == Lookup(t, k)
    ensures !Allocates(c) && k.parent in ChangeInodes(loaded, c)
    ensures var now := Value(Writes(t, t, c, revision), k);
            && (now.Some? ==> now.value.EntryRecord? && now.value.entry.child in ChangeInodes(loaded, c))
            && (k in t && t[k].entry.child !in ChangeInodes(loaded, c)
                ==> Overwrites(t, c, t[k].entry.child) && now.Some?)
  {
  }

  /** The change behind a changed entry. */
  lemma ChangedEntry(t: Table, q: Request, revision: Revision, t': Table, k: Key) returns (c: Change)
    requires Stepped(t, q, revision, t') && k.EntryKey? && Lookup(t', k) != Lookup(t, k)
    ensures c in q.changes && Touches(c, k) && !Allocates(c)
    ensures Lookup(t', k) == Value(Writes(t, t, c, revision), k)
    ensures ShapeError(c, q.mutation).None? && Admits(t, c, q)
    ensures k in t ==> Names(t[k], k)
    ensures Lookup(Loaded(t, q), k) == Lookup(t, k)
  {
    hide Stepped, Writes, Admits, ShapeError, Loaded;
    if !Touched(q.changes, k) {
      UntouchedKept(t, q, revision, t', k);
    }
    c :| c in q.changes && Touches(c, k);
    ChangeAt(t, q, revision, t', c, k);
    RowNamed(t, q, revision, t', k);
  }

  /** An entry that changed has a targeted parent, before and after. */
  lemma ChangedEntryParent(t: Table, q: Request, revision: Revision, t': Table, k: Key)
    requires Stepped(t, q, revision, t') && k.EntryKey? && Lookup(t', k) != Lookup(t, k)
    ensures TargetsInode(Loaded(t, q), q.changes, k.parent)
  {
    var c := ChangedEntry(t, q, revision, t', k);
    EntryWriteTargets(t, Loaded(t, q), c, q, revision, k);
  }

  /** The child an entry names after a change is targeted. */
  lemma ChangedEntryNewChild(t: Table, q: Request, revision: Revision, t': Table, k: Key)
    requires Stepped(t, q, revision, t') && k.EntryKey? && Lookup(t', k) != Lookup(t, k) && k in t'
    ensures t'[k].EntryRecord? && TargetsInode(Loaded(t, q), q.changes, t'[k].entry.child)
  {
    var c := ChangedEntry(t, q, revision, t', k);
    EntryWriteTargets(t, Loaded(t, q), c, q, revision, k);
  }

  /** The child an entry named before is targeted too, unless it was overwritten. */
  lemma ChangedEntryOldChild(t: Table, q: Request, revision: Revision, t': Table, k: Key)
    requires Stepped(t, q, revision, t') && k.EntryKey? && Lookup(t', k) != Lookup(t, k) && k in t
    ensures t[k].EntryRecord?
    ensures TargetsInode(Loaded(t, q), q.changes, t[k].entry.child)
            || exists c :: c in q.changes && Overwrites(t, c, t[k].entry.child) && k in t'
  {
    var c := ChangedEntry(t, q, revision, t', k);
    EntryWriteTargets(t, Loaded(t, q), c, q, revision, k);
  }

  lemma UntargetedNames(t: Table, q: Request, revision: Revision, t': Table, i: InodeId)
    requires Stepped(t, q, revision, t')
    requires !TargetsInode(Loaded(t, q), q.changes, i)
    ensures EntriesIn(t', i) == EntriesIn(t, i)
    ensures EntriesTo(t', i) <= EntriesTo(t, i)
  {
    forall k: Key | k.EntryKey? && k.parent == i ensures Lookup(t', k) == Lookup(t, k) {
      if Lookup(t', k) != Lookup(t, k) {
        ChangedEntryParent(t, q, revision, t', k);
      }
    }
    forall k | k in EntriesIn(t', i) || k in EntriesIn(t, i) ensures k in EntriesIn(t', i) && k in EntriesIn(t, i) {
      assert Lookup(t', k) == Lookup(t, k);
    }
    forall k | k in EntriesTo(t', i) ensures k in EntriesTo(t, i) {
      if Lookup(t', k) != Lookup(t, k) {
        ChangedEntryNewChild(t, q, revision, t', k);
      }
    }
  }

  lemma UntargetedLinks(t: Table, q: Request, revision: Revision, t': Table, i: InodeId)
    requires Stepped(t, q, revision, t') && OverwrittenTargeted(t, q)
    requires !TargetsInode(Loaded(t, q), q.changes, i)
    ensures EntriesTo(t', i) == EntriesTo(t, i)
  {
    UntargetedNames(t, q, revision, t', i);
    forall k | k in EntriesTo(t, i) ensures k in EntriesTo(t', i) {
      if Lookup(t', k) != Lookup(t, k) {
        ChangedEntryOldChild(t, q, revision, t', k);
      }
    }
  }

  // --------------------------------------------------------- root and parents

  /** A single change that keeps the header keeps its root. */
  lemma HeaderWriteKeepsRoot(t: Table, c: Change, q: Request, revision: Revision)
    requires ShapeError(c, q.mutation).None? && Admits(t, c, q) && Touches(c, FilesystemKey)
    requires HeaderAt(t).Some? && c != Delete(FilesystemKey) && !Allocates(c)
    requires c.Replace? && c.record.FilesystemRecord? ==> c.record.header.root == HeaderAt(t).value.root
    ensures var now := Value(Writes(t, t, c, revision), FilesystemKey);
            now.Some? && now.value.FilesystemRecord? && now.value.header.root == HeaderAt(t).value.root
  {
  }

  lemma LoadedReplacementOk(t: Table, q: Request, c: Change)
    requires TransitionsOk(Loaded(t, q), q.changes) && Guarded(t, q) && c in q.changes
    ensures ReplacementOk(Loaded(t, q), q.changes, Parents(Loaded(t, q), q.changes), c)
  {
  }

  /** The header and its root survive unless the header is deleted. */
  lemma RootPersists(t: Table, q: Request, revision: Revision, t': Table)
    requires Stepped(t, q, revision, t') && TransitionsOk(Loaded(t, q), q.changes)
    requires HeaderAt(t).Some? && Delete(FilesystemKey) !in q.changes
    ensures HeaderAt(t').Some? && HeaderAt(t').value.root == HeaderAt(t).value.root
  {
    if c :| c in q.changes && Touches(c, FilesystemKey) {
      NamespaceIsGuarded(t, q, c);
      LoadedReplacementOk(t, q, c);
      if !Allocates(c) {
        HeaderWriteKeepsRoot(t, c, q, revision);
        assert Lookup(t', FilesystemKey) == Value(Writes(t, t, c, revision), FilesystemKey);
      }
    } else {
      assert Lookup(t', FilesystemKey) == Lookup(t, FilesystemKey);
    }
  }

  /** A change to a directory row leaves a directory, or deletes it, or demotes it. */
  lemma DirectoryWrite(t: Table, c: Change, q: Request, revision: Revision, p: InodeId)
    requires ShapeError(c, q.mutation).None? && Admits(t, c, q) && Touches(c, InodeKey(p))
    requires IsDirectory(t, p)
    ensures var now := Value(Writes(t, t, c, revision), InodeKey(p));
            || (now.None? && c == Delete(InodeKey(p)))
            || (now.Some? && now.value.InodeRecord? && now.value.node.data.DirectoryData?)
            || (c.Replace? && c.key == InodeKey(p) && c.record.InodeRecord?
                && !c.record.node.data.DirectoryData?)
  {
  }

  /** A directory with names stays a directory. */
  lemma NonEmptyStaysDirectory(t: Table, q: Request, revision: Revision, depth: nat, t': Table, p: InodeId)
    requires Stepped(t, q, revision, t') && TransitionsOk(Loaded(t, q), q.changes)
    requires TargetedOk(t', Loaded(t, q), q.changes, depth) && TreeGuard(t, q)
    requires IsDirectory(t, p) && EntriesIn(t', p) != {} && (!Guarded(t, q) ==> EntriesIn(t, p) != {})
    ensures IsDirectory(t', p)
  {
    hide TransitionsOk, TargetedOk, Guarded, OverwrittenTargeted, TreeGuard, Loaded;
    var k := InodeKey(p);
    if c :| c in q.changes && Touches(c, k) {
      DirectoryWrite(t, c, q, revision, p);
      assert Lookup(t', k) == Value(Writes(t, t, c, revision), k);
      assert p in ChangeInodes(Loaded(t, q), c);
      NamedParentPresent(t', Loaded(t, q), q.changes, depth, p);
      if c.Replace? && c.record.InodeRecord? {
        NotDemoted(t, q, c, p);
      }
    } else {
      assert Lookup(t', k) == Lookup(t, k);
    }
  }

  lemma NotDemoted(t: Table, q: Request, c: Change, p: InodeId)
    requires TransitionsOk(Loaded(t, q), q.changes) && LoadedFrom(t, Loaded(t, q), q.changes) && TreeGuard(t, q)
    requires IsDirectory(t, p) && (!Guarded(t, q) ==> EntriesIn(t, p) != {})
    requires c in q.changes && c.Replace? && c.record.InodeRecord?
    ensures c.key == InodeKey(p) ==> c.record.node.data.DirectoryData?
  {
    hide TransitionsOk;
    if c.key == InodeKey(p) && Guarded(t, q) {
      LoadedReplacementOk(t, q, c);
      assert Touches(c, c.key) && Lookup(Loaded(t, q), c.key) == Lookup(t, c.key);
    }
  }

  lemma NamedParentPresent(t: Table, loaded: Table, changes: seq<Change>, depth: nat, p: InodeId)
    requires WellKeyed(t) && TargetedOk(t, loaded, changes, depth) && TargetsInode(loaded, changes, p)
    requires EntriesIn(t, p) != {}
    ensures InodeAt(t, p).Some?
  {
    var e :| e in EntriesIn(t, p);
    assert Names(t[e], e) && DependsOn(t, e, p);
    assert InodeOk(t, p, depth);
  }

  // ---------------------------------------------------------- main direction

  /** An accepted request on a tree that meets the caller condition. */
  ghost predicate TreeStep(t: Table, q: Request, revision: Revision, depth: nat, t': Table)
  {
    && Stepped(t, q, revision, t')
    && TransitionsOk(Loaded(t, q), q.changes)
    && TargetedOk(t', Loaded(t, q), q.changes, depth)
    && Tree(t) && TreeGuard(t, q)
  }

  lemma DependentKeepsInode(t: Table, loaded: Table, changes: seq<Change>, depth: nat, k: Key, i: InodeId)
    requires TargetedOk(t, loaded, changes, depth) && TargetsInode(loaded, changes, i)
    requires k in t && DependsOn(t, k, i)
    ensures InodeAt(t, i).Some?
  {
    assert InodeOk(t, i, depth);
  }

  lemma AdvanceTouches(loaded: Table, c: Change, p: InodeId)
    requires AdvancesDirectory(loaded, c, p)
    ensures Touches(c, InodeKey(p)) && !Allocates(c)
  {
  }

  lemma AdvanceIsDirectory(t: Table, loaded: Table, c: Change, q: Request, revision: Revision, p: InodeId)
    requires AdvancesDirectory(loaded, c, p) && Admits(t, c, q) && ShapeError(c, q.mutation).None?
    ensures Touches(c, InodeKey(p)) && !Allocates(c)
    ensures var now := Value(Writes(t, t, c, revision), InodeKey(p));
            now.Some? && now.value.InodeRecord? && now.value.node.data.DirectoryData?
  {
  }

  lemma ParentAdvances(loaded: Table, changes: seq<Change>, c: Change, p: InodeId) returns (d: Change)
    requires TransitionsOk(loaded, changes) && FilesystemKey in loaded && c in changes && Renames(loaded, c, p)
    ensures d in changes && AdvancesDirectory(loaded, d, p)
  {
    ParentsAre(loaded, changes, p);
    assert SomeAdvances(loaded, changes, p);
    d :| d in changes && AdvancesDirectory(loaded, d, p);
  }

  /** Whoever changes names under `p` moves its directory generation, so `p` is a directory. */
  lemma NamespaceParentIsDirectory(t: Table, q: Request, revision: Revision, t': Table, c: Change, p: InodeId)
    requires Stepped(t, q, revision, t') && TransitionsOk(Loaded(t, q), q.changes)
    requires Guarded(t, q) && c in q.changes && Renames(Loaded(t, q), c, p)
    ensures IsDirectory(t', p)
  {
    hide Stepped, TransitionsOk, Writes, Loaded, Admits, ShapeError;
    var d := ParentAdvances(Loaded(t, q), q.changes, c, p);
    AdvanceTouches(Loaded(t, q), d, p);
    ChangeAt(t, q, revision, t', d, InodeKey(p));
    AdvanceIsDirectory(t, Loaded(t, q), d, q, revision, p);
  }

  lemma EntryWriteRenames(t: Table, loaded: Table, c: Change, q: Request, revision: Revision, k: Key)
    requires ShapeError(c, q.mutation).None? && Admits(t, c, q) && Touches(c, k) && k.EntryKey?
    requires Lookup(loaded, k) == Lookup(t, k) && (k in t ==> Names(t[k], k))
    ensures NamespaceChange(c) && Renames(loaded, c, k.parent)
  {
  }

  lemma ChangedEntryPlaced(t: Table, q: Request, revision: Revision, depth: nat, t': Table, k: Key)
    requires TreeStep(t, q, revision, depth, t')
    requires k in t' && k.EntryKey? && Lookup(t', k) != Lookup(t, k)
    ensures IsDirectory(t', k.parent)
  {
    hide Stepped, TransitionsOk, TargetedOk, TreeGuard, Writes, Loaded, Admits, ShapeError, Guarded;
    var c := ChangedEntry(t, q, revision, t', k);
    EntryWriteRenames(t, Loaded(t, q), c, q, revision, k);
    NamespaceIsGuarded(t, q, c);
    NamespaceParentIsDirectory(t, q, revision, t', c, k.parent);
  }

  lemma EntryStaysPlaced(t: Table, q: Request, revision: Revision, depth: nat, t': Table, k: Key)
    requires TreeStep(t, q, revision, depth, t')
    ensures EntryPlaced(t', k)
  {
    if k in t' && k.EntryKey? {
      assert Names(t'[k], k);
      if Lookup(t', k) != Lookup(t, k) {
        ChangedEntryPlaced(t, q, revision, depth, t', k);
        ChangedEntryNewChild(t, q, revision, t', k);
        DependentKeepsInode(t', Loaded(t, q), q.changes, depth, k, t'[k].entry.child);
      } else {
        assert EntryPlaced(t, k);
        assert k in EntriesIn(t, k.parent) && k in EntriesIn(t', k.parent);
        NonEmptyStaysDirectory(t, q, revision, depth, t', k.parent);
        ChildStays(t, q, revision, depth, t', k, t'[k].entry.child);
      }
    }
  }

  lemma ChildStays(t: Table, q: Request, revision: Revision, depth: nat, t': Table, k: Key, i: InodeId)
    requires Stepped(t, q, revision, t') && TargetedOk(t', Loaded(t, q), q.changes, depth)
    requires k in t' && DependsOn(t', k, i) && InodeAt(t, i).Some?
    ensures InodeAt(t', i).Some?
  {
    if TargetsInode(Loaded(t, q), q.changes, i) {
      DependentKeepsInode(t', Loaded(t, q), q.changes, depth, k, i);
    } else {
      UntargetedInode(t, q, revision, t', i);
    }
  }

  lemma RootStaysPlaced(t: Table, q: Request, revision: Revision, depth: nat, t': Table)
    requires TreeStep(t, q, revision, depth, t')
    ensures HeaderAt(t').Some? && HeaderAt(t').value.root == HeaderAt(t).value.root
    ensures RootPlaced(t', HeaderAt(t).value.root)
  {
    var root := HeaderAt(t).value.root;
    RootPersists(t, q, revision, t');
    if TargetsInode(Loaded(t, q), q.changes, root) {
      assert InodeOk(t', root, depth);
      assert Names(t'[InodeKey(root)], InodeKey(root));
    } else {
      UntargetedInode(t, q, revision, t', root);
      UntargetedNames(t, q, revision, t', root);
    }
  }

  lemma OnlyEntryThere(a: set<Key>, b: set<Key>)
    requires |a| == 1 && |a * b| == 1
    ensures a <= b
  {
    var x :| x in a * b;
    assert |a - {x}| == 0;
    assert a == {x};
  }

  lemma TargetedIsPlaced(t: Table, q: Request, depth: nat, t': Table, root: InodeId, i: InodeId)
    requires WellKeyed(t') && TargetedOk(t', Loaded(t, q), q.changes, depth)
    requires TargetsInode(Loaded(t, q), q.changes, i) && InodeAt(t', i).Some?
    requires HeaderAt(t').Some? && HeaderAt(t').value.root == root && i != root
    ensures NodePlaced(t', root, InodeAt(t', i).value)
  {
    assert InodeOk(t', i, depth) && Names(t'[InodeKey(i)], InodeKey(i));
    var n := InodeAt(t', i).value;
    if n.data.DirectoryData? && n.linkCount != 0 {
      OnlyEntryThere(EntriesTo(t', i), EntriesIn(t', n.data.parent));
      assert Ancestry(t', i, root, depth);
    }
  }

  /** The parent of an untargeted live directory still holds its entry and is live. */
  lemma ParentOfUntargeted(t: Table, q: Request, revision: Revision, depth: nat, t': Table, i: InodeId)
    requires TreeStep(t, q, revision, depth, t')
    requires !TargetsInode(Loaded(t, q), q.changes, i) && i != HeaderAt(t).value.root
    requires IsDirectory(t, i) && InodeAt(t, i).value.linkCount != 0
    ensures var p := InodeAt(t, i).value.data.parent;
            Live(t', HeaderAt(t).value.root, p) && EntriesTo(t', i) == EntriesTo(t, i) <= EntriesIn(t', p)
  {
    var root := HeaderAt(t).value.root;
    var p := InodeAt(t, i).value.data.parent;
    assert Names(t[InodeKey(i)], InodeKey(i)) && NodePlaced(t, root, InodeAt(t, i).value);
    UntargetedLinks(t, q, revision, t', i);
    assert EntriesTo(t, i) != {};
    var k :| k in EntriesTo(t, i);
    assert k in EntriesIn(t, p) && k in EntriesIn(t', p);
    NonEmptyStaysDirectory(t, q, revision, depth, t', p);
    if p != root {
      NonEmptyIsLive(t, q, revision, depth, t', root, p);
    }
  }

  ghost predicate Live(t: Table, root: InodeId, i: InodeId)
  {
    IsDirectory(t, i) && (i == root || InodeAt(t, i).value.linkCount != 0)
  }

  lemma NonEmptyIsLive(t: Table, q: Request, revision: Revision, depth: nat, t': Table, root: InodeId, p: InodeId)
    requires TreeStep(t, q, revision, depth, t') && root == HeaderAt(t).value.root && p != root
    requires IsDirectory(t', p) && EntriesIn(t', p) != {}
    ensures Live(t', root, p)
  {
    assert Names(t'[InodeKey(p)], InodeKey(p));
    if TargetsInode(Loaded(t, q), q.changes, p) {
      RootPersists(t, q, revision, t');
      assert InodeOk(t', p, depth);
    } else {
      UntargetedInode(t, q, revision, t', p);
      UntargetedNames(t, q, revision, t', p);
      assert NodePlaced(t, root, InodeAt(t, p).value);
    }
  }

  /** Every live directory still reaches the root, along parents nobody examined too. */
  lemma {:induction false} StillReaches(
      t: Table, q: Request, revision: Revision, depth: nat, t': Table, i: InodeId, d: nat)
    requires TreeStep(t, q, revision, depth, t')
    requires Live(t', HeaderAt(t).value.root, i)
    requires TargetsInode(Loaded(t, q), q.changes, i) || Ancestry(t, i, HeaderAt(t).value.root, d)
    ensures Reaches(t', i, HeaderAt(t).value.root)
    decreases d
  {
    var root := HeaderAt(t).value.root;
    RootStaysPlaced(t, q, revision, depth, t');
    assert Names(t'[InodeKey(i)], InodeKey(i));
    if i == root {
      assert Ancestry(t', root, root, 0);
    } else if TargetsInode(Loaded(t, q), q.changes, i) {
      assert InodeOk(t', i, depth);
      assert Ancestry(t', i, root, depth);
    } else {
      UntargetedInode(t, q, revision, t', i);
      ParentOfUntargeted(t, q, revision, depth, t', i);
      var p := InodeAt(t, i).value.data.parent;
      StillReaches(t, q, revision, depth, t', p, d - 1);
      var e: nat :| Ancestry(t', p, root, e);
      assert Ancestry(t', i, root, e + 1);
    }
  }

  lemma NodeStaysPlaced(t: Table, q: Request, revision: Revision, depth: nat, t': Table, i: InodeId)
    requires TreeStep(t, q, revision, depth, t')
    requires InodeAt(t', i).Some? && i != HeaderAt(t).value.root
    ensures NodePlaced(t', HeaderAt(t).value.root, InodeAt(t', i).value)
  {
    var root := HeaderAt(t).value.root;
    RootStaysPlaced(t, q, revision, depth, t');
    if TargetsInode(Loaded(t, q), q.changes, i) {
      TargetedIsPlaced(t, q, depth, t', root, i);
    } else {
      UntargetedInode(t, q, revision, t', i);
      UntargetedNames(t, q, revision, t', i);
      UntargetedLinks(t, q, revision, t', i);
      assert Names(t[InodeKey(i)], InodeKey(i));
      var n := InodeAt(t, i).value;
      assert NodePlaced(t, root, n);
      if n.data.DirectoryData? && n.linkCount != 0 {
        ParentOfUntargeted(t, q, revision, depth, t', i);
        var d: nat :| Ancestry(t, i, root, d);
        StillReaches(t, q, revision, depth, t', i, d);
      }
    }
  }

  lemma TreeSurvives(t: Table, q: Request, revision: Revision, depth: nat, t': Table)
    requires TreeStep(t, q, revision, depth, t')
    ensures Tree(t')
  {
    RootStaysPlaced(t, q, revision, depth, t');
    forall i | InodeAt(t', i).Some? && i != HeaderAt(t').value.root
      ensures NodePlaced(t', HeaderAt(t').value.root, InodeAt(t', i).value)
    {
      NodeStaysPlaced(t, q, revision, depth, t', i);
    }
    forall k ensures EntryPlaced(t', k) {
      EntryStaysPlaced(t, q, revision, depth, t', k);
    }
  }

  // -------------------------------------------------------- other direction

  lemma {:induction false} FewerKeys(a: set<Key>, b: set<Key>)
    requires a < b
    ensures |a| < |b|
  {
    var x :| x in b && x !in a;
    Shrinks(a, b, x);
  }

  /** An overwritten child nobody targets keeps its row but loses an entry. */
  lemma OverwrittenLosesEntry(t: Table, q: Request, revision: Revision, t': Table, c: Change, i: InodeId)
    requires Stepped(t, q, revision, t') && c in q.changes && Overwrites(t, c, i)
    requires !TargetsInode(Loaded(t, q), q.changes, i)
    ensures EntriesTo(t', i) < EntriesTo(t, i)
  {
    var k := if c.MoveEntry? then DestinationKey(c) else c.key;
    assert ShapeError(c, q.mutation).None? && Touches(c, k);
    assert Lookup(t', k) == Value(Writes(t, t, c, revision), k);
    UntargetedNames(t, q, revision, t', i);
    assert k in EntriesTo(t, i);
    assert i !in ChangeInodes(Loaded(t, q), c);
  }

  lemma OverwrittenBreaksTree(t: Table, q: Request, revision: Revision, t': Table, c: Change, i: InodeId)
    requires Stepped(t, q, revision, t') && Tree(t) && c in q.changes && Overwrites(t, c, i)
    requires TransitionsOk(Loaded(t, q), q.changes) && Delete(FilesystemKey) !in q.changes
    requires !TargetsInode(Loaded(t, q), q.changes, i)
    ensures !Tree(t')
  {
    var root := HeaderAt(t).value.root;
    OverwrittenLosesEntry(t, q, revision, t', c, i);
    FewerKeys(EntriesTo(t', i), EntriesTo(t, i));
    RootPersists(t, q, revision, t');
    UntargetedInode(t, q, revision, t', i);
    var k :| k in EntriesTo(t, i);
    assert EntryPlaced(t, k);
    assert Names(t[InodeKey(i)], InodeKey(i)) && i != root;
    assert NodePlaced(t, root, InodeAt(t, i).value);
    assert !NodePlaced(t', root, InodeAt(t', i).value);
  }

  lemma UnguardedKeepsEntry(t: Table, q: Request, revision: Revision, t': Table, k: Key)
    requires Stepped(t, q, revision, t') && FilesystemKey in t && !Guarded(t, q) && k.EntryKey?
    ensures Lookup(t', k) == Lookup(t, k)
  {
    forall d | d in q.changes ensures !Touches(d, k) {
      assert ShapeError(d, q.mutation).None?;
      if Touches(d, k) {
        NamespaceIsGuarded(t, q, d);
      }
    }
  }

  lemma DemotionBreaksTree(t: Table, q: Request, revision: Revision, t': Table, c: Change)
    requires Stepped(t, q, revision, t') && Tree(t) && !Guarded(t, q)
    requires c in q.changes && DemotesNonEmpty(t, c)
    ensures !Tree(t')
  {
    var p := c.key.inode;
    assert Touches(c, c.key) && Lookup(t', c.key) == Value(Writes(t, t, c, revision), c.key);
    var k :| k in EntriesIn(t, p);
    UnguardedKeepsEntry(t, q, revision, t', k);
    assert !EntryPlaced(t', k);
  }

  /** The tree survives an accepted request exactly under the caller condition. */
  lemma TreeIffGuard(t: Table, q: Request, revision: Revision, depth: nat, t': Table)
    requires WellKeyed(t) && Tree(t) && Admitted(t, q, revision, depth, t')
    ensures Tree(t') <==> TreeGuard(t, q)
  {
    hide Admitted, PreflightOk, TransitionsOk, LocksOk, TargetedOk, DistinctTargets, ApplyAll;
    AdmittedSteps(t, q, revision, depth, t');
    AdmittedParts(t, q, revision, depth, t');
    if TreeGuard(t, q) {
      TreeSurvives(t, q, revision, depth, t');
    } else if Delete(FilesystemKey) in q.changes {
      var c := Delete(FilesystemKey);
      assert Touches(c, FilesystemKey);
      assert Lookup(t', FilesystemKey) == Value(Writes(t, t, c, revision), FilesystemKey);
    } else if !OverwrittenTargeted(t, q) {
      var c, i :| c in q.changes && Overwrites(t, c, i) && !TargetsInode(Loaded(t, q), q.changes, i);
      OverwrittenBreaksTree(t, q, revision, t', c, i);
    } else {
      var c :| c in q.changes && DemotesNonEmpty(t, c);
      DemotionBreaksTree(t, q, revision, t', c);
    }
  }

  // -------------------------------------------------------------- bootstrap

  ghost predicate Unborn(t: Table)
  {
    FilesystemKey !in t && forall k | k in t :: !k.InodeKey? && !k.EntryKey?
  }

  /** On a filesystem without header, inodes and entries, a first accepted request
      that creates the header creates a tree. */
  lemma BootstrapMakesTree(t: Table, q: Request, revision: Revision, depth: nat, t': Table)
    requires WellKeyed(t) && Unborn(t) && Admitted(t, q, revision, depth, t')
    ensures Tree(t') <==> FilesystemKey in t'
  {
    AdmittedSteps(t, q, revision, depth, t');
    if FilesystemKey in t' {
      assert Names(t'[FilesystemKey], FilesystemKey);
      var root := HeaderAt(t').value.root;
      forall i | InodeAt(t', i).Some? ensures TargetsInode(Loaded(t, q), q.changes, i) {
        if !TargetsInode(Loaded(t, q), q.changes, i) {
          UntargetedInode(t, q, revision, t', i);
        }
      }
      assert InodeOk(t', root, depth) && Names(t'[InodeKey(root)], InodeKey(root));
      forall i | InodeAt(t', i).Some? && i != root ensures NodePlaced(t', root, InodeAt(t', i).value) {
        TargetedIsPlaced(t, q, depth, t', root, i);
      }
      forall k ensures EntryPlaced(t', k) {
        FirstEntryPlaced(t, q, revision, depth, t', k);
      }
    }
  }

  lemma FirstEntryPlaced(t: Table, q: Request, revision: Revision, depth: nat, t': Table, k: Key)
    requires Stepped(t, q, revision, t') && Unborn(t) && TargetedOk(t', Loaded(t, q), q.changes, depth)
    ensures EntryPlaced(t', k)
  {
    hide Stepped, Writes, Loaded, Admits, ShapeError;
    if k in t' && k.EntryKey? {
      RowNamed(t, q, revision, t', k);
      var c := ChangedEntry(t, q, revision, t', k);
      FirstEntryWrite(t, c, q, revision, k);
      assert WrittenRowOk(t', c);
    }
  }

  lemma FirstEntryWrite(t: Table, c: Change, q: Request, revision: Revision, k: Key)
    requires ShapeError(c, q.mutation).None? && Admits(t, c, q) && Touches(c, k) && k.EntryKey? && Unborn(t)
    requires Value(Writes(t, t, c, revision), k).Some?
    ensures c.Insert? && c.record.EntryRecord? && c.record.entry.parent == k.parent
    ensures Value(Writes(t, t, c, revision), k).value == EntryRecord(c.record.entry.(revision := revision))
  {
  }
}
