/** What each kind of change means for the rows, seen from outside a committed
    request (crates/w9pt-fs-state/src/commit.rs:413-491,
    crates/w9pt-fs-state-postgres/src/commit.rs:1071-1546). */
module RowEffects {
  import opened Values
  import opened Records
  import opened Requests
  import opened Applying
  import opened Effects
  import opened Admission

  /** The same record at another revision. */
  predicate SameButRevision(a: Record, b: Record)
  {
    match (a, b)
    case (FilesystemRecord(x), FilesystemRecord(y)) => x == y.(revision := x.revision)
    case (InodeRecord(x), InodeRecord(y)) => x == y.(revision := x.revision)
    case (ContentMetadataRecord(x), ContentMetadataRecord(y)) => x == y.(revision := x.revision)
    case (EntryRecord(x), EntryRecord(y)) => x == y.(revision := x.revision)
    case (OpenRecord(x), OpenRecord(y)) => x == y.(revision := x.revision)
    case (OpenPinRecord(x), OpenPinRecord(y)) => x == y.(revision := x.revision)
    case (OrphanRecord(x), OrphanRecord(y)) => x == y.(revision := x.revision)
    case (LockRecord(x), LockRecord(y)) => x == y.(revision := x.revision)
    case (XattrRecord(x), XattrRecord(y)) => x == y.(revision := x.revision)
    case (XattrStagingRecord(x), XattrStagingRecord(y)) => x == y.(revision := x.revision)
    case (MutationRecord(x), MutationRecord(y)) => x == y.(revision := x.revision)
    case (WriterLeaseRecord(x), WriterLeaseRecord(y)) => x == y.(revision := x.revision)
    case _ => false
  }

  /** Only the link count, the inode generation and the revision may differ. */
  predicate OnlyCounters(n: Inode, n': Inode)
  {
    n' == n.(linkCount := n'.linkCount, inodeGeneration := n'.inodeGeneration, revision := n'.revision)
    && n'.inodeGeneration == n.inodeGeneration + 1
  }

  /** The counter moved by exactly the adjustment. */
  predicate Moved(a: CounterAdjustment, before: nat, after: nat)
  {
    if a.Increase? then after == before + a.amount else after + a.amount == before
  }

  predicate Selected<T(==)>(choice: Option<T>, before: T, after: T)
  {
    after == if choice.Some? then choice.value else before
  }

  /** A publication installs the prepared content, takes the selected attributes and
      leaves identity, links, context and the other attributes alone. */
  predicate PublishedAs(p: Publication, n: Inode, n': Inode)
  {
    && n'.id == n.id && n'.qidPath == n.qidPath && n'.linkCount == n.linkCount && n'.context == n.context
    && n'.inodeGeneration == n.inodeGeneration + 1
    && n'.data == RegularData(p.prepared.content.file, Some(p.prepared.content), p.prepared.content.generation)
    && n'.logicalSize == p.prepared.content.logicalSize
    && Selected(p.attributes.mode, n.attributes.mode, n'.attributes.mode)
    && Selected(p.attributes.owner, n.attributes.owner, n'.attributes.owner)
    && Selected(p.attributes.group, n.attributes.group, n'.attributes.group)
    && Selected(p.attributes.accessed, n.attributes.times.accessed, n'.attributes.times.accessed)
    && Selected(p.attributes.modified, n.attributes.times.modified, n'.attributes.times.modified)
    && Selected(p.attributes.changed, n.attributes.times.changed, n'.attributes.times.changed)
    && Selected(p.attributes.created, n.attributes.times.created, n'.attributes.times.created)
  }

  /** The rows of `c` before and after the request. */
  ghost predicate HasEffect(t: Table, c: Change, t': Table)
  {
    match c
    case Insert(k, r) => k !in t && k in t' && SameButRevision(t'[k], r)
    case Replace(k, r) => k in t && k in t' && SameButRevision(t'[k], r)
    case Delete(k) => k in t && k !in t'
    case MoveEntry(_, _, e) =>
      && SourceKey(c) in t && t[SourceKey(c)].EntryRecord? && SourceKey(c) !in t'
      && DestinationKey(c) in t' && t'[DestinationKey(c)].EntryRecord?
      && var old' := t[SourceKey(c)].entry; var new' := t'[DestinationKey(c)].entry;
         new'.cookie == old'.cookie && new'.child == old'.child
         && new'.parent == e.parent && new'.name == e.name
    case RetainResult => true
    case AdvanceCookie(n) =>
      HeaderAt(t).Some? && HeaderAt(t').Some?
      && HeaderAt(t').value.nextCookie - HeaderAt(t).value.nextCookie == n
    case AdvanceQidPath(n) =>
      HeaderAt(t).Some? && HeaderAt(t').Some?
      && HeaderAt(t').value.nextQidPath - HeaderAt(t).value.nextQidPath == n
    case BumpPolicyGeneration =>
      HeaderAt(t).Some? && HeaderAt(t').Some?
      && var h := HeaderAt(t).value; var h' := HeaderAt(t').value;
         h' == h.(policyGeneration := h.policyGeneration + 1, revision := h'.revision)
    case BumpInodeGeneration(i) =>
      InodeAt(t, i).Some? && InodeAt(t', i).Some?
      && OnlyCounters(InodeAt(t, i).value, InodeAt(t', i).value)
      && InodeAt(t', i).value.linkCount == InodeAt(t, i).value.linkCount
    case BumpDirectoryGeneration(i) =>
      IsDirectory(t, i) && IsDirectory(t', i)
      && var n := InodeAt(t, i).value; var n' := InodeAt(t', i).value;
         n'.data.generation == n.data.generation + 1 && n'.data.parent == n.data.parent
         && OnlyCounters(n.(data := n'.data), n') && n'.linkCount == n.linkCount
    case AdjustLinkCount(i, a) =>
      InodeAt(t, i).Some? && InodeAt(t', i).Some?
      && OnlyCounters(InodeAt(t, i).value, InodeAt(t', i).value)
      && Moved(a, InodeAt(t, i).value.linkCount, InodeAt(t', i).value.linkCount)
    case AdjustOpenPinCount(i, a) =>
      var k := OrphanKey(i);
      k in t && t[k].OrphanRecord? && k in t' && t'[k].OrphanRecord?
      && t'[k].orphan.orphanedRevision == t[k].orphan.orphanedRevision && t'[k].orphan.inode == t[k].orphan.inode
      && Moved(a, t[k].orphan.pinCount, t'[k].orphan.pinCount)
    case BumpLockGeneration(i, l) =>
      var k := LockKey(i, l);
      k in t && t[k].LockRecord? && k in t' && t'[k].LockRecord?
      && t'[k].lock.generation == t[k].lock.generation + 1
      && SameButRevision(t'[k], LockRecord(t[k].lock.(generation := t'[k].lock.generation)))
    case PublishContent(p) =>
      InodeAt(t, p.inode).Some? && InodeAt(t', p.inode).Some?
      && PublishedAs(p, InodeAt(t, p.inode).value, InodeAt(t', p.inode).value)
    case RewrapContentMetadata(r) =>
      var k := ContentMetadataKey(r.file);
      k in t && t[k].ContentMetadataRecord? && k in t' && t'[k].ContentMetadataRecord?
      && t'[k].metadata.wrappedKey == Some(r.wrappedKey)
      && SameButRevision(t[k], ContentMetadataRecord(t'[k].metadata.(wrappedKey := t[k].metadata.wrappedKey)))
    case PublishXattrStaging(s, i, n) =>
      XattrStagingKey(s) in t && t[XattrStagingKey(s)].XattrStagingRecord? && XattrStagingKey(s) !in t'
      && XattrKey(i, n) in t' && t'[XattrKey(i, n)].XattrRecord?
      && t'[XattrKey(i, n)].xattr.value == t[XattrStagingKey(s)].staging.bytes
  }

  /** The rows a change declares hold what it writes. */
  ghost predicate Wrote(t: Table, c: Change, revision: Revision, t': Table)
  {
    forall k | Touches(c, k) :: Lookup(t', k) == Value(Writes(t, t, c, revision), k)
  }

  lemma RecordHasEffect(t: Table, c: Change, q: Request, revision: Revision, t': Table)
    requires c.Insert? || c.Replace? || c.Delete?
    requires Admits(t, c, q) && Wrote(t, c, revision, t')
    ensures HasEffect(t, c, t')
  {
    assert Touches(c, c.key);
  }

  lemma MoveHasEffect(t: Table, c: Change, q: Request, revision: Revision, t': Table)
    requires c.MoveEntry? && SourceKey(c) != DestinationKey(c)
    requires Admits(t, c, q) && Wrote(t, c, revision, t')
    ensures HasEffect(t, c, t')
  {
    assert Touches(c, SourceKey(c)) && Touches(c, DestinationKey(c));
  }

  lemma CounterHasEffect(t: Table, c: Change, q: Request, revision: Revision, t': Table)
    requires c.BumpPolicyGeneration? || c.AdjustOpenPinCount? || c.BumpLockGeneration?
    requires Admits(t, c, q) && Wrote(t, c, revision, t')
    ensures HasEffect(t, c, t')
  {
    assert Touches(c, PrimaryKey(c));
  }

  lemma InodeHasEffect(t: Table, c: Change, q: Request, revision: Revision, t': Table)
    requires c.BumpInodeGeneration? || c.BumpDirectoryGeneration? || c.AdjustLinkCount?
    requires Admits(t, c, q) && Wrote(t, c, revision, t')
    ensures HasEffect(t, c, t')
  {
    assert Touches(c, PrimaryKey(c));
  }

  lemma PublicationHasEffect(t: Table, c: Change, q: Request, revision: Revision, t': Table)
    requires c.PublishContent? && WellKeyed(t)
    requires Admits(t, c, q) && Wrote(t, c, revision, t')
    ensures HasEffect(t, c, t')
  {
    var k := InodeKey(c.publication.inode);
    assert Touches(c, k) && Names(t[k], k);
  }

  lemma MetadataHasEffect(t: Table, c: Change, q: Request, revision: Revision, t': Table)
    requires c.RewrapContentMetadata? || c.PublishXattrStaging?
    requires Admits(t, c, q) && Wrote(t, c, revision, t')
    ensures HasEffect(t, c, t')
  {
    assert Touches(c, PrimaryKey(c));
    if c.PublishXattrStaging? {
      assert Touches(c, XattrKey(c.inode, c.name));
    }
  }

  /** One change's rows, from its admission and its written values. */
  lemma WriteHasEffect(t: Table, c: Change, q: Request, revision: Revision, t': Table)
    requires WellKeyed(t) && !Allocates(c) && Admits(t, c, q)
    requires c.MoveEntry? ==> SourceKey(c) != DestinationKey(c)
    requires Wrote(t, c, revision, t')
    ensures HasEffect(t, c, t')
  {
    hide WellKeyed, Admits, Wrote;
    match c
    case Insert(_, _) => RecordHasEffect(t, c, q, revision, t');
    case Replace(_, _) => RecordHasEffect(t, c, q, revision, t');
    case Delete(_) => RecordHasEffect(t, c, q, revision, t');
    case MoveEntry(_, _, _) => MoveHasEffect(t, c, q, revision, t');
    case RetainResult =>
    case BumpPolicyGeneration => CounterHasEffect(t, c, q, revision, t');
    case AdjustOpenPinCount(_, _) => CounterHasEffect(t, c, q, revision, t');
    case BumpLockGeneration(_, _) => CounterHasEffect(t, c, q, revision, t');
    case BumpInodeGeneration(_) => InodeHasEffect(t, c, q, revision, t');
    case BumpDirectoryGeneration(_) => InodeHasEffect(t, c, q, revision, t');
    case AdjustLinkCount(_, _) => InodeHasEffect(t, c, q, revision, t');
    case PublishContent(_) => PublicationHasEffect(t, c, q, revision, t');
    case RewrapContentMetadata(_) => MetadataHasEffect(t, c, q, revision, t');
    case PublishXattrStaging(_, _, _) => MetadataHasEffect(t, c, q, revision, t');
  }

  lemma MoveHasTwoKeys(changes: seq<Change>, c: Change)
    requires DistinctTargets(changes) && c in changes
    ensures c.MoveEntry? ==> SourceKey(c) != DestinationKey(c)
  {
    var x :| 0 <= x < |changes| && changes[x] == c;
  }

  /** Every change of a committed request has its effect on the rows before it,
      whatever its position and its companions. */
  lemma CommittedChangeHasEffect(t: Table, q: Request, revision: Revision, t': Table, c: Change)
    requires Stepped(t, q, revision, t') && DistinctTargets(q.changes) && c in q.changes
    ensures HasEffect(t, c, t')
  {
    if Allocates(c) {
      assert HeaderAdvanced(t, q.changes, revision, t');
    } else {
      hide Writes, Written, HasEffect, DistinctTargets;
      forall k | Touches(c, k) ensures Lookup(t', k) == Value(Writes(t, t, c, revision), k) {
        ChangeAt(t, q, revision, t', c, k);
      }
      MoveHasTwoKeys(q.changes, c);
      WriteHasEffect(t, c, q, revision, t');
    }
  }
}
