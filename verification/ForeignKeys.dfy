/** The deferred foreign keys of the schema, which the database checks at COMMIT
    (crates/w9pt-fs-state-postgres/src/schema/m20260904_182105_create_w9pt_fs_state.rs:1010-1088):
    all but one follow from what the transaction itself keeps. */
module ForeignKeys {
  import opened Values
  import opened Records
  import opened Requests
  import opened Applying
  import opened Effects
  import opened Transitions
  import opened LockTable
  import opened Targeting
  import Accounting
  import opened Admission
  import opened Namespace
  import opened ContentHistory
  import opened Authority
  import opened Invariants
  import opened Coherence
  import opened Histories
  import opened WholeImage

  /** The rows a record references stand. */
  predicate ReferencesStand(t: Table, r: Record)
  {
    match r
    case FilesystemRecord(h) => InodeAt(t, h.root).Some?
    case InodeRecord(n) => ParentStands(t, n) && MetadataStands(t, n)
    case EntryRecord(e) => InodeAt(t, e.parent).Some? && InodeAt(t, e.child).Some?
    case OpenRecord(o) => InodeAt(t, o.inode).Some?
    case OpenPinRecord(p) => InodeAt(t, p.inode).Some? && OpenStands(t, p.inode, p.open)
    case OrphanRecord(o) => InodeAt(t, o.inode).Some?
    case LockRecord(l) => InodeAt(t, l.inode).Some? && OpenStands(t, l.inode, l.owner.open)
    case XattrRecord(x) => InodeAt(t, x.inode).Some?
    case XattrStagingRecord(s) => InodeAt(t, s.inode).Some?
    case _ => true
  }

  predicate ParentStands(t: Table, n: Inode)
  {
    n.data.DirectoryData? ==> InodeAt(t, n.data.parent).Some?
  }

  predicate MetadataStands(t: Table, n: Inode)
  {
    n.data.RegularData? ==>
      var k := ContentMetadataKey(n.data.contentFile);
      k in t && t[k].ContentMetadataRecord? && n.context == Some(t[k].metadata.context)
  }

  predicate OpenStands(t: Table, i: InodeId, o: OpenId)
  {
    OpenKey(o) in t && t[OpenKey(o)].OpenRecord? && t[OpenKey(o)].open.inode == i
  }

  /** What a row references: every inode it depends on, the root or parent it names, the
      open of a pin or lock on the same inode, and the metadata of a regular file. */
  lemma ReferencesMean(t: Table, r: Record)
    ensures ReferencesStand(t, r) <==>
      && (forall i | RefersTo(r, i) :: InodeAt(t, i).Some?)
      && (r.FilesystemRecord? ==> InodeAt(t, r.header.root).Some?)
      && (r.InodeRecord? && r.node.data.DirectoryData? ==> InodeAt(t, r.node.data.parent).Some?)
      && (r.OpenPinRecord? ==> Accounting.HeldOpen(t, r.pin.open, r.pin.inode).Some?)
      && (r.LockRecord? ==> Accounting.HeldOpen(t, r.lock.owner.open, r.lock.inode).Some?)
      && (r.InodeRecord? && r.node.data.RegularData? ==>
            exists m :: Lookup(t, ContentMetadataKey(r.node.data.contentFile)) == Some(ContentMetadataRecord(m))
                        && r.node.context == Some(m.context))
  {
    match r
    case EntryRecord(e) => assert RefersTo(r, e.parent) && RefersTo(r, e.child);
    case OpenRecord(o) => assert RefersTo(r, o.inode);
    case OpenPinRecord(p) => assert RefersTo(r, p.inode);
    case OrphanRecord(o) => assert RefersTo(r, o.inode);
    case LockRecord(l) => assert RefersTo(r, l.inode);
    case XattrRecord(x) => assert RefersTo(r, x.inode);
    case XattrStagingRecord(s) => assert RefersTo(r, s.inode);
    case _ =>
  }

  ghost predicate ForeignKeysHold(t: Table)
  {
    forall k | k in t :: ReferencesStand(t, t[k])
  }

  /** Every directory, also an unlinked one, has its parent. */
  ghost predicate ParentsStand(t: Table)
  {
    forall i | InodeAt(t, i).Some? :: ParentStands(t, InodeAt(t, i).value)
  }

  ghost predicate UnlinkedParentsStand(t: Table)
  {
    forall i | InodeAt(t, i).Some? && InodeAt(t, i).value.linkCount == 0 :: ParentStands(t, InodeAt(t, i).value)
  }

  lemma RowStands(t: Table, k: Key)
    requires TableInv(t) && HeaderOk(t) && ParentsStand(t) && k in t
    ensures ReferencesStand(t, t[k])
  {
    assert Names(t[k], k);
    match t[k]
    case FilesystemRecord(_) =>
    case InodeRecord(n) => assert InodeAt(t, n.id) == Some(n) && MatchedAt(t, n);
    case EntryRecord(e) => assert DependsOn(t, k, e.parent) && DependsOn(t, k, e.child);
    case OpenRecord(o) => assert DependsOn(t, k, o.inode);
    case OpenPinRecord(p) => assert DependsOn(t, k, p.inode) && PinOwnerOk(t, p);
    case OrphanRecord(o) => assert DependsOn(t, k, o.inode);
    case LockRecord(l) => assert DependsOn(t, k, l.inode) && LockOwnerOk(t, l);
    case XattrRecord(x) => assert DependsOn(t, k, x.inode);
    case XattrStagingRecord(s) => assert DependsOn(t, k, s.inode);
    case _ =>
  }

  lemma ForeignKeysIff(t: Table)
    requires TableInv(t) && HeaderOk(t)
    ensures ForeignKeysHold(t) <==> ParentsStand(t)
  {
    hide TableInv, HeaderOk;
    if ParentsStand(t) {
      forall k | k in t ensures ReferencesStand(t, t[k]) {
        RowStands(t, k);
      }
    }
    if ForeignKeysHold(t) {
      forall i | InodeAt(t, i).Some? ensures ParentStands(t, InodeAt(t, i).value) {
        assert ReferencesStand(t, t[InodeKey(i)]);
      }
    }
  }

  lemma TreeParentsStand(t: Table)
    requires WellKeyed(t) && Tree(t)
    ensures ParentsStand(t) <==> UnlinkedParentsStand(t)
  {
    var root := HeaderAt(t).value.root;
    forall i | InodeAt(t, i).Some? && InodeAt(t, i).value.linkCount != 0
      ensures ParentStands(t, InodeAt(t, i).value)
    {
      assert Names(t[InodeKey(i)], InodeKey(i));
      if i == root {
        assert RootPlaced(t, root);
      } else {
        assert NodePlaced(t, root, InodeAt(t, i).value);
      }
    }
  }

  lemma SameHeaderOk(a: Table, b: Table)
    requires SameFiles(a, b) && WellKeyed(b) && HeaderOk(a)
    ensures HeaderOk(b)
  {
    SameHeader(a, b);
    if HeaderAt(a).Some? {
      SameSets(a, b, HeaderAt(a).value.root);
    }
    forall k | k in b && b[k].EntryRecord? ensures k in a && a[k] == b[k] {
      assert Names(b[k], k) && Lookup(a, k) == Lookup(b, k);
    }
  }

  lemma StepHeaderOk(s: State, step: Step)
    requires Inv(s) && Inv(Next(s, step)) && Enabled(s, step) && HeaderOk(s.table)
    ensures HeaderOk(Next(s, step).table)
  {
    hide Inv, Enabled, Next, HeaderOk, Admitted, Stepped, SameFiles, WellKeyed;
    StepFiles(s, step);
    assert WellKeyed(Next(s, step).table) by { InvTable(Next(s, step)); }
    if step.Commit? {
      AdmittedHeaderOk(s.table, step.request, s.current + 1, step.depth, step.files);
      SameHeaderOk(step.files, Next(s, step).table);
    } else {
      SameHeaderOk(s.table, Next(s, step).table);
    }
  }

  lemma FreshHeaderOk()
    ensures HeaderOk(FRESH.table)
  {
  }

  lemma {:induction false} HeaderAlwaysOk(run: seq<Step>, n: nat)
    requires Runs(FRESH, run) && n <= |run|
    ensures HeaderOk(At(FRESH, run, n).table)
    decreases n
  {
    hide Inv, Enabled, Next, HeaderOk;
    if n == 0 {
      FreshHeaderOk();
    } else {
      HeaderAlwaysOk(run, n - 1);
      InvAlways(run, n - 1);
      InvAlways(run, n);
      assert Takes(FRESH, run, n - 1);
      StepHeaderOk(At(FRESH, run, n - 1), run[n - 1]);
    }
  }

  lemma AdmittedHeaderOk(t: Table, q: Request, revision: Revision, depth: nat, t': Table)
    requires Admitted(t, q, revision, depth, t')
    ensures HeaderOk(t')
  {
  }

  /** In every reachable state the foreign keys hold exactly when every directory has
      its parent; in a tree only the parents of unlinked directories are in question. */
  lemma ForeignKeysOverRun(run: seq<Step>, n: nat)
    requires Runs(FRESH, run) && n <= |run|
    ensures var t := At(FRESH, run, n).table;
            && (ForeignKeysHold(t) <==> ParentsStand(t))
            && (Tree(t) ==> (ForeignKeysHold(t) <==> UnlinkedParentsStand(t)))
  {
    hide Enabled, Next, Runs, At, HeaderOk, Tree, ParentsStand, UnlinkedParentsStand, ForeignKeysHold;
    var s := At(FRESH, run, n);
    InvAlways(run, n);
    InvTable(s);
    hide Inv;
    HeaderAlwaysOk(run, n);
    ForeignKeysIff(s.table);
    if Tree(s.table) {
      TreeParentsStand(s.table);
    }
  }

  // ------------------------------------------------------------- per request

  predicate WritesDirectory(c: Change)
  {
    (c.Insert? || c.Replace?) && c.record.InodeRecord? && c.record.node.data.DirectoryData?
  }

  predicate Rewrites(c: Change, i: InodeId)
  {
    (c.Replace? || c.Delete?) && c.key == InodeKey(i)
  }

  ghost predicate Rewritten(q: Request, i: InodeId)
  {
    exists c :: c in q.changes && Rewrites(c, i)
  }

  /** Inode `p` stands after the request: it stood and is not deleted, or is inserted. */
  ghost predicate Stays(t: Table, q: Request, p: InodeId)
  {
    || (InodeAt(t, p).Some? && Delete(InodeKey(p)) !in q.changes)
    || exists c :: c in q.changes && InsertsInode(c) && c.record.node.id == p
  }

  /** Every directory the request writes names a parent that stays, and it deletes no
      parent of a directory it leaves alone. */
  ghost predicate ParentGuard(t: Table, q: Request)
  {
    && (forall c | c in q.changes && WritesDirectory(c) :: Stays(t, q, c.record.node.data.parent))
    && (forall i | IsDirectory(t, i) && !Rewritten(q, i)
          :: Delete(InodeKey(InodeAt(t, i).value.data.parent)) !in q.changes)
  }

  lemma StaysIff(t: Table, q: Request, revision: Revision, t': Table, p: InodeId)
    requires Stepped(t, q, revision, t') && DistinctTargets(q.changes)
    ensures InodeAt(t', p).Some? <==> Stays(t, q, p)
  {
    hide Stepped, DistinctTargets;
    RowNamed(t, q, revision, t', InodeKey(p));
    if InodeAt(t, p).Some? {
      InodesDeleted(t, q, revision, t', p);
    }
    if InodeAt(t', p).Some? {
      InodeOrigin(t, q, revision, t', p);
    }
    forall c | c in q.changes && InsertsInode(c) && c.record.node.id == p ensures InodeAt(t', p).Some? {
      InsertedInode(t, q, revision, t', c);
    }
  }

  lemma WrittenDirectory(t: Table, c: Change, q: Request, revision: Revision)
    requires ShapeError(c, q.mutation).None? && (c.Insert? || c.Replace?) && c.record.InodeRecord?
    ensures !Allocates(c) && Touches(c, c.key) && c.key == InodeKey(c.record.node.id)
    ensures Value(Writes(t, t, c, revision), c.key) == Some(InodeRecord(c.record.node.(revision := revision)))
  {
  }

  lemma DirectoryLeftAlone(t: Table, c: Change, q: Request, revision: Revision, i: InodeId)
    requires ShapeError(c, q.mutation).None? && Admits(t, c, q) && Touches(c, InodeKey(i)) && !Rewrites(c, i)
    requires InodeAt(t, i).Some? && InodeAt(t, i).value.id == i
    ensures !Allocates(c)
    ensures var now := Value(Writes(t, t, c, revision), InodeKey(i));
            now.Some? && now.value.InodeRecord?
            && DirectoryParent(now.value.node) == DirectoryParent(InodeAt(t, i).value)
  {
  }

  /** A directory no change rewrites keeps its parent. */
  lemma ParentKept(t: Table, q: Request, revision: Revision, t': Table, i: InodeId)
    requires Stepped(t, q, revision, t') && InodeAt(t, i).Some? && !Rewritten(q, i)
    ensures InodeAt(t', i).Some? && DirectoryParent(InodeAt(t', i).value) == DirectoryParent(InodeAt(t, i).value)
  {
    hide Stepped, Writes, Admits, ShapeError;
    var k := InodeKey(i);
    RowNamed(t, q, revision, t', k);
    if c :| c in q.changes && Touches(c, k) {
      ChangeAt(t, q, revision, t', c, k);
      DirectoryLeftAlone(t, c, q, revision, i);
    } else {
      UntouchedKept(t, q, revision, t', k);
    }
  }

  /** A written directory row has the parent of its change. */
  lemma ParentWritten(t: Table, q: Request, revision: Revision, t': Table, c: Change)
    requires Stepped(t, q, revision, t') && c in q.changes && WritesDirectory(c)
    ensures InodeAt(t', c.record.node.id) == Some(c.record.node.(revision := revision))
  {
    hide Stepped, Writes;
    assert Touches(c, c.key);
    ChangeAt(t, q, revision, t', c, c.key);
    WrittenDirectory(t, c, q, revision);
  }

  lemma ParentStaysUnderGuard(t: Table, q: Request, revision: Revision, t': Table, i: InodeId)
    requires Stepped(t, q, revision, t') && DistinctTargets(q.changes) && ParentsStand(t) && ParentGuard(t, q)
    requires IsDirectory(t', i)
    ensures Stays(t, q, InodeAt(t', i).value.data.parent)
  {
    hide Stepped, DistinctTargets, Writes, ShapeError, Admits;
    var k := InodeKey(i);
    RowNamed(t, q, revision, t', k);
    if c :| c in q.changes && Rewrites(c, i) {
      assert Touches(c, k);
      ChangeAt(t, q, revision, t', c, k);
      if c.Replace? {
        RecordIsInode(c, q, i);
        WrittenDirectory(t, c, q, revision);
      } else {
        DeleteWritesNone(t, c, revision);
      }
    } else if InodeAt(t, i).Some? {
      ParentKept(t, q, revision, t', i);
    } else {
      InodeOrigin(t, q, revision, t', i);
    }
  }

  lemma RecordIsInode(c: Change, q: Request, i: InodeId)
    requires ShapeError(c, q.mutation).None? && c.Replace? && c.key == InodeKey(i)
    ensures c.record.InodeRecord?
  {
  }

  lemma DeleteWritesNone(t: Table, c: Change, revision: Revision)
    requires c.Delete?
    ensures Value(Writes(t, t, c, revision), c.key).None? && !Allocates(c)
  {
  }

  /** The COMMIT of an accepted request passes the foreign keys exactly when it leaves
      every directory its parent. */
  lemma ForeignKeysIffGuard(t: Table, q: Request, revision: Revision, depth: nat, t': Table)
    requires TableInv(t) && HeaderOk(t) && ForeignKeysHold(t) && Admitted(t, q, revision, depth, t')
    ensures ForeignKeysHold(t') <==> ParentGuard(t, q)
  {
    hide TableInv, HeaderOk, ForeignKeysHold, Admitted, Stepped;
    TableInvPreserved(t, q, revision, depth, t');
    AdmittedHeaderOk(t, q, revision, depth, t');
    AdmittedParts(t, q, revision, depth, t');
    hide TransitionsOk, DistinctTargets, TargetedOk, ApplyAll, LocksOk, PreflightOk, ContentPaired, WellShaped;
    ForeignKeysIff(t);
    ForeignKeysIff(t');
    if ParentGuard(t, q) {
      forall i | InodeAt(t', i).Some? ensures ParentStands(t', InodeAt(t', i).value) {
        if IsDirectory(t', i) {
          ParentStaysUnderGuard(t, q, revision, t', i);
          StaysIff(t, q, revision, t', InodeAt(t', i).value.data.parent);
        }
      }
    }
    if ParentsStand(t') {
      StandingImpliesGuard(t, q, revision, t');
    }
  }

  lemma StandingImpliesGuard(t: Table, q: Request, revision: Revision, t': Table)
    requires Stepped(t, q, revision, t') && DistinctTargets(q.changes) && ParentsStand(t) && ParentsStand(t')
    ensures ParentGuard(t, q)
  {
    hide Stepped, DistinctTargets, Stays;
    forall c | c in q.changes && WritesDirectory(c) ensures Stays(t, q, c.record.node.data.parent) {
      ParentWritten(t, q, revision, t', c);
      assert ParentStands(t', InodeAt(t', c.record.node.id).value);
      StaysIff(t, q, revision, t', c.record.node.data.parent);
    }
    forall i | IsDirectory(t, i) && !Rewritten(q, i)
      ensures Delete(InodeKey(InodeAt(t, i).value.data.parent)) !in q.changes
    {
      ParentKept(t, q, revision, t', i);
      var p := InodeAt(t, i).value.data.parent;
      assert ParentStands(t, InodeAt(t, i).value) && ParentStands(t', InodeAt(t', i).value);
      InodesDeleted(t, q, revision, t', p);
    }
  }
}
