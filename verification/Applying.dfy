/** Applying one accepted change list to the record table
    (crates/w9pt-fs-state-postgres/src/commit.rs `apply_change`, record_write.rs). */
module Applying {
  import opened Values
  import opened Records
  import opened Requests

  datatype ConflictKind =
    | RecordPresent(key: Key)
    | RecordMissing(key: Key)
    | RevisionDiffers(key: Key, expected: Revision, actual: Revision)
    | InodeGenerationDiffers | DataGenerationDiffers | DirectoryGenerationDiffers
    | ContentBaseDiffers | LinkCountDiffers | OpenPinCountDiffers | PolicyGenerationDiffers
    | FenceDiffers
    | LockConflict(existing: LockId)

  /** Why a change is not applied. A violated constraint aborts the transaction; a
      key or unique violation is worth a recheck, a CHECK violation is not. */
  datatype Refusal =
    | Conflict(kind: ConflictKind)
    | Rejected(error: Malformed)
    | ConstraintViolated(recheck: bool)

  /** The row effects of one change. */
  datatype Write = Write(removed: set<Key>, written: map<Key, Record>)

  const NO_WRITE := Write({}, map[])

  function Overlay(t: Table, w: Write): Table
  {
    (t - w.removed) + w.written
  }

  function Put(k: Key, r: Record): Write
  {
    Write({}, map[k := r])
  }

  /** Counters are computed from the loaded rows, the remaining columns stay as
      they are in the transaction. */
  function Writes(cur: Table, loaded: Table, c: Change, revision: Revision): Write
  {
    match c
    case Insert(k, r) => Put(k, Stamp(r, revision))
    case Replace(k, r) => Put(k, Stamp(r, revision))
    case Delete(k) => Write({k}, map[])
    case MoveEntry(_, _, destination) =>
      Write({SourceKey(c)}, map[DestinationKey(c) := EntryRecord(destination.(revision := revision))])
    case RetainResult => NO_WRITE
    case AdvanceCookie(_) => HeaderWrites(cur, loaded, c, revision)
    case AdvanceQidPath(_) => HeaderWrites(cur, loaded, c, revision)
    case BumpPolicyGeneration => HeaderWrites(cur, loaded, c, revision)
    case BumpInodeGeneration(i) => InodeWrites(cur, loaded, c, i, revision)
    case BumpDirectoryGeneration(i) => InodeWrites(cur, loaded, c, i, revision)
    case AdjustLinkCount(i, _) => InodeWrites(cur, loaded, c, i, revision)
    case AdjustOpenPinCount(i, a) =>
      var k := OrphanKey(i);
      if k in cur && cur[k].OrphanRecord? && k in loaded && loaded[k].OrphanRecord?
         && Adjust(a, loaded[k].orphan.pinCount).Some?
      then Put(k, OrphanRecord(cur[k].orphan.(pinCount := Adjust(a, loaded[k].orphan.pinCount).value,
                                              revision := revision)))
      else NO_WRITE
    case BumpLockGeneration(i, l) =>
      var k := LockKey(i, l);
      if k in cur && cur[k].LockRecord? && k in loaded && loaded[k].LockRecord?
      then Put(k, LockRecord(cur[k].lock.(generation := loaded[k].lock.generation + 1,
                                          revision := revision)))
      else NO_WRITE
    case PublishContent(p) =>
      if InodeAt(cur, p.inode).Some?
      then Put(InodeKey(p.inode), InodeRecord(Published(InodeAt(cur, p.inode).value, p, revision)))
      else NO_WRITE
    case RewrapContentMetadata(r) =>
      var k := ContentMetadataKey(r.file);
      if k in cur && cur[k].ContentMetadataRecord?
      then Put(k, ContentMetadataRecord(cur[k].metadata.(wrappedKey := Some(r.wrappedKey),
                                                         revision := revision)))
      else NO_WRITE
    case PublishXattrStaging(s, i, n) =>
      var k := XattrStagingKey(s);
      if k in loaded && loaded[k].XattrStagingRecord?
      then Write({k}, map[XattrKey(i, n) := XattrRecord(Xattr(i, n, loaded[k].staging.bytes, revision))])
      else NO_WRITE
  }

  function HeaderWrites(cur: Table, loaded: Table, c: Change, revision: Revision): Write
  {
    if HeaderAt(cur).None? || HeaderAt(loaded).None? then NO_WRITE else
      var h := HeaderAt(cur).value;
      var prior := HeaderAt(loaded).value;
      match c
      case AdvanceCookie(n) =>
        Put(FilesystemKey, FilesystemRecord(h.(nextCookie := prior.nextCookie + n, revision := revision)))
      case AdvanceQidPath(n) =>
        Put(FilesystemKey, FilesystemRecord(h.(nextQidPath := prior.nextQidPath + n, revision := revision)))
      case BumpPolicyGeneration =>
        Put(FilesystemKey,
            FilesystemRecord(h.(policyGeneration := prior.policyGeneration + 1, revision := revision)))
      case _ => NO_WRITE
  }

  function InodeWrites(cur: Table, loaded: Table, c: Change, i: InodeId, revision: Revision): Write
  {
    if InodeAt(cur, i).None? || InodeAt(loaded, i).None? then NO_WRITE else
      var prior := InodeAt(loaded, i).value;
      var n := InodeAt(cur, i).value.(inodeGeneration := prior.inodeGeneration + 1, revision := revision);
      match c
      case BumpInodeGeneration(_) => Put(InodeKey(i), InodeRecord(n))
      case BumpDirectoryGeneration(_) =>
        if n.data.DirectoryData? && prior.data.DirectoryData?
        then Put(InodeKey(i), InodeRecord(n.(data := n.data.(generation := prior.data.generation + 1))))
        else NO_WRITE
      case AdjustLinkCount(_, a) =>
        if Adjust(a, prior.linkCount).Some?
        then Put(InodeKey(i), InodeRecord(n.(linkCount := Adjust(a, prior.linkCount).value)))
        else NO_WRITE
      case _ => NO_WRITE
  }

  // ---------------------------------------------------------- constraints

  /** The unique constraints of the inode, entry and content-metadata tables. */
  predicate SameUnique(a: Record, b: Record)
  {
    || (a.InodeRecord? && b.InodeRecord? && a.node.qidPath == b.node.qidPath)
    || (a.EntryRecord? && b.EntryRecord?
        && a.entry.parent == b.entry.parent && a.entry.cookie == b.entry.cookie)
    || (a.ContentMetadataRecord? && b.ContentMetadataRecord?
        && (a.metadata.context == b.metadata.context || a.metadata.owner == b.metadata.owner))
  }

  predicate Violates(base: Table, k: Key, r: Record)
  {
    !SchemaAllows(r) || exists j :: j in base && j != k && SameUnique(base[j], r)
  }

  predicate WriteViolates(cur: Table, w: Write)
  {
    exists k :: k in w.written && Violates(cur - w.removed, k, w.written[k])
  }

  ghost predicate ConstraintsHold(t: Table)
  {
    && (forall k | k in t :: SchemaAllows(t[k]))
    && (forall j, k | j in t && k in t && j != k :: !SameUnique(t[j], t[k]))
  }

  // -------------------------------------------------------------- refusals

  function Missing(k: Key): Option<Refusal>
  {
    Some(Conflict(RecordMissing(k)))
  }

  /** The checks `apply_change` makes before and while writing, in order. */
  function ChangeRefusal(cur: Table, loaded: Table, c: Change, q: Request): Option<Refusal>
  {
    match c
    case Insert(k, _) =>
      if k in loaded then Some(Conflict(RecordPresent(k)))
      else if k in cur then Some(ConstraintViolated(true))
      else None
    case Replace(k, r) =>
      if k in loaded && loaded[k].InodeRecord? && r.InodeRecord?
         && (Content(loaded[k].node) != Content(r.node)
             || ContentFile(loaded[k].node) != ContentFile(r.node)
             || loaded[k].node.context != r.node.context)
        then Some(Rejected(ContentReplacementRequiresPreparedPublication))
      else if k !in cur then Missing(k)
      else None
    case Delete(k) => if k !in cur then Missing(k) else None
    case MoveEntry(_, _, _) => MoveRefusal(cur, loaded, c)
    case RetainResult => None
    case AdvanceCookie(n) => HeaderRefusal(cur, loaded,
        HeaderAt(loaded).Some? && CheckedAdd(HeaderAt(loaded).value.nextCookie, n).Some?)
    case AdvanceQidPath(n) => HeaderRefusal(cur, loaded,
        HeaderAt(loaded).Some? && CheckedAdd(HeaderAt(loaded).value.nextQidPath, n).Some?)
    case BumpPolicyGeneration =>
      HeaderRefusal(cur, loaded,
        HeaderAt(loaded).Some? && CheckedNext(HeaderAt(loaded).value.policyGeneration).Some?)
    case BumpInodeGeneration(i) => InodeRefusal(cur, loaded, i, true)
    case BumpDirectoryGeneration(i) =>
      InodeRefusal(cur, loaded, i, InodeAt(loaded, i).Some?
        && DirectoryGeneration(InodeAt(loaded, i).value).Some?
        && CheckedNext(DirectoryGeneration(InodeAt(loaded, i).value).value).Some?)
    case AdjustLinkCount(i, a) =>
      InodeRefusal(cur, loaded, i,
        InodeAt(loaded, i).Some? && Adjust(a, InodeAt(loaded, i).value.linkCount).Some?)
    case AdjustOpenPinCount(i, a) =>
      var k := OrphanKey(i);
      if k !in loaded || !loaded[k].OrphanRecord? then Missing(k)
      else
        var count := Adjust(a, loaded[k].orphan.pinCount);
        if count.None? || count.value == 0 then Some(Rejected(Arithmetic))
        else if k !in cur then Missing(k)
        else None
    case BumpLockGeneration(i, l) =>
      var k := LockKey(i, l);
      if k !in loaded || !loaded[k].LockRecord? then Missing(k)
      else if CheckedNext(loaded[k].lock.generation).None? then Some(Rejected(Arithmetic))
      else if k !in cur then Missing(k)
      else None
    case PublishContent(p) => PublishRefusal(cur, loaded, p, q)
    case RewrapContentMetadata(r) => RewrapRefusal(cur, loaded, r)
    case PublishXattrStaging(s, i, n) =>
      var k := XattrStagingKey(s);
      if k !in loaded || !loaded[k].XattrStagingRecord? then Some(Rejected(InvalidXattrStaging))
      else if k !in cur then Missing(k)
      else if XattrKey(i, n) in loaded && XattrKey(i, n) !in cur then Missing(XattrKey(i, n))
      else if XattrKey(i, n) !in loaded && XattrKey(i, n) in cur then Some(ConstraintViolated(true))
      else None
  }

  function MoveRefusal(cur: Table, loaded: Table, c: Change): Option<Refusal>
    requires c.MoveEntry?
  {
    var source, target := SourceKey(c), DestinationKey(c);
    if source !in loaded || !loaded[source].EntryRecord? then Missing(source)
    else if loaded[source].entry.cookie != c.destination.cookie
            || loaded[source].entry.child != c.destination.child
      then Some(Rejected(DirectoryCookieAllocation))
    else if source !in cur then Missing(source)
    else if target in loaded && (target !in cur || target == source) then Missing(target)
    else if target !in loaded && target in cur then Some(ConstraintViolated(true))
    else None
  }

  function HeaderRefusal(cur: Table, loaded: Table, computable: bool): Option<Refusal>
  {
    if HeaderAt(loaded).None? then Missing(FilesystemKey)
    else if !computable then Some(Rejected(Arithmetic))
    else if FilesystemKey !in cur then Missing(FilesystemKey)
    else None
  }

  function InodeRefusal(cur: Table, loaded: Table, i: InodeId, computable: bool): Option<Refusal>
  {
    if InodeAt(loaded, i).None? then Missing(InodeKey(i))
    else if !computable || CheckedNext(InodeAt(loaded, i).value.inodeGeneration).None?
      then Some(Rejected(Arithmetic))
    else if InodeKey(i) !in cur then Missing(InodeKey(i))
    else None
  }

  function PublishRefusal(cur: Table, loaded: Table, p: Publication, q: Request): Option<Refusal>
  {
    var m := ContentMetadataKey(p.prepared.binding.file);
    if InodeAt(loaded, p.inode).None? then Missing(InodeKey(p.inode))
    else if m !in cur || !cur[m].ContentMetadataRecord?
      then Some(Rejected(InvalidPublication(ContentContextMismatch)))
    else
      var error := PublicationError(p, q.mutation, InodeAt(loaded, p.inode).value, cur[m].metadata);
      if error.Some? then Some(Rejected(InvalidPublication(error.value)))
      else if InodeKey(p.inode) !in cur then Missing(InodeKey(p.inode))
      else None
  }

  function RewrapRefusal(cur: Table, loaded: Table, r: Rewrap): Option<Refusal>
  {
    var k := ContentMetadataKey(r.file);
    if k !in loaded || !loaded[k].ContentMetadataRecord? then Missing(k)
    else
      var current := loaded[k].metadata;
      if current.context != r.expectedContext || current.revision != r.expectedRevision
         || current.wrappedKey.None?
        then Some(Conflict(RevisionDiffers(k, r.expectedRevision, current.revision)))
      else if current.keyCommitment.None? || r.wrappedKey == []
        then Some(Rejected(InvalidContentMetadataRewrap))
      else if k !in cur || !cur[k].ContentMetadataRecord?
              || cur[k].metadata.context != r.expectedContext
              || cur[k].metadata.revision != r.expectedRevision
        then Missing(k)
      else None
  }

  // --------------------------------------------------------------- applying

  datatype Applied = Done(table: Table) | Refused(why: Refusal)

  function ApplyChange(cur: Table, loaded: Table, c: Change, q: Request, revision: Revision): Applied
  {
    var refusal := ChangeRefusal(cur, loaded, c, q);
    if refusal.Some? then Refused(refusal.value)
    else
      var w := Writes(cur, loaded, c, revision);
      if WriteViolates(cur, w)
        then Refused(ConstraintViolated(forall k | k in w.written :: SchemaAllows(w.written[k])))
      else Done(Overlay(cur, w))
  }

  /** The whole change list, one change at a time, stopping at the first refusal. */
  function ApplyAll(t: Table, loaded: Table, changes: seq<Change>, q: Request, revision: Revision): Applied
  {
    if changes == [] then Done(t)
    else
      match ApplyAll(t, loaded, changes[..|changes| - 1], q, revision)
      case Done(cur) => ApplyChange(cur, loaded, changes[|changes| - 1], q, revision)
      case Refused(why) => Refused(why)
  }

  // --------------------------------------------------------- why it was refused

  /** The counters a change moves cannot all be moved that far. */
  predicate OutOfRange(loaded: Table, c: Change)
  {
    match c
    case AdvanceCookie(n) => HeaderAt(loaded).Some? && HeaderAt(loaded).value.nextCookie + n > U64_MAX
    case AdvanceQidPath(n) => HeaderAt(loaded).Some? && HeaderAt(loaded).value.nextQidPath + n > U64_MAX
    case BumpPolicyGeneration => HeaderAt(loaded).Some? && HeaderAt(loaded).value.policyGeneration >= U64_MAX
    case BumpInodeGeneration(i) => InodeAt(loaded, i).Some? && InodeAt(loaded, i).value.inodeGeneration >= U64_MAX
    case BumpDirectoryGeneration(i) =>
      InodeAt(loaded, i).Some? && (!IsDirectory(loaded, i) || InodeAt(loaded, i).value.data.generation >= U64_MAX
                                   || InodeAt(loaded, i).value.inodeGeneration >= U64_MAX)
    case AdjustLinkCount(i, a) =>
      InodeAt(loaded, i).Some? && (Unreachable(a, InodeAt(loaded, i).value.linkCount, 0)
                                   || InodeAt(loaded, i).value.inodeGeneration >= U64_MAX)
    case AdjustOpenPinCount(i, a) =>
      OrphanKey(i) in loaded && loaded[OrphanKey(i)].OrphanRecord?
      && Unreachable(a, loaded[OrphanKey(i)].orphan.pinCount, 1)
    case BumpLockGeneration(i, l) =>
      LockKey(i, l) in loaded && loaded[LockKey(i, l)].LockRecord?
      && loaded[LockKey(i, l)].lock.generation >= U64_MAX
    case _ => false
  }

  /** The adjusted value would leave the range from `least` to 64 bits. */
  predicate Unreachable(a: CounterAdjustment, current: nat, least: nat)
  {
    match a
    case Increase(n) => current + n > U64_MAX || current + n < least
    case Decrease(n) => current < n + least
  }

  /** The reason belongs to the change: the key it could not find or found taken, the
      revision that differs, or the rule of its kind that it breaks. */
  ghost predicate Explained(cur: Table, loaded: Table, c: Change, q: Request, why: Refusal)
  {
    match why
    case Conflict(RecordPresent(k)) => c.Insert? && c.key == k && k in loaded
    case Conflict(RecordMissing(k)) =>
      && Touches(c, k) && !c.Insert?
      && (k !in loaded || k !in cur || (c.MoveEntry? && SourceKey(c) == DestinationKey(c))
          || (c.RewrapContentMetadata? && cur[k] != loaded[k]))
    case Conflict(RevisionDiffers(k, expected, actual)) =>
      && c.RewrapContentMetadata? && k == ContentMetadataKey(c.rewrap.file) && expected == c.rewrap.expectedRevision
      && k in loaded && loaded[k].ContentMetadataRecord? && actual == RevisionOf(loaded[k])
      && (actual != expected || loaded[k].metadata.context != c.rewrap.expectedContext
          || loaded[k].metadata.wrappedKey.None?)
    case Rejected(ContentReplacementRequiresPreparedPublication) =>
      && c.Replace? && c.key in loaded && loaded[c.key].InodeRecord? && c.record.InodeRecord?
      && (loaded[c.key].node.context != c.record.node.context
          || Content(loaded[c.key].node) != Content(c.record.node)
          || ContentFile(loaded[c.key].node) != ContentFile(c.record.node))
    case Rejected(DirectoryCookieAllocation) =>
      c.MoveEntry? && forall e | Lookup(loaded, SourceKey(c)) == Some(EntryRecord(e)) ::
        e.cookie != c.destination.cookie || e.child != c.destination.child
    case Rejected(Arithmetic) => OutOfRange(loaded, c)
    case Rejected(InvalidPublication(error)) =>
      && c.PublishContent? && InodeAt(loaded, c.publication.inode).Some?
      && (match Lookup(cur, ContentMetadataKey(c.publication.prepared.binding.file))
          case Some(ContentMetadataRecord(m)) =>
            PublicationError(c.publication, q.mutation, InodeAt(loaded, c.publication.inode).value, m) == Some(error)
          case _ => error == ContentContextMismatch)
    case Rejected(InvalidContentMetadataRewrap) => c.RewrapContentMetadata?
    case Rejected(InvalidXattrStaging) => c.PublishXattrStaging? && XattrStagingKey(c.staging) !in loaded
    case ConstraintViolated(recheck) => recheck && exists k :: Touches(c, k) && k in cur && k !in loaded
    case _ => false
  }

  lemma RecordExplained(cur: Table, loaded: Table, c: Change, q: Request)
    requires WellKeyed(cur) && WellKeyed(loaded) && ChangeRefusal(cur, loaded, c, q).Some?
    requires c.Insert? || c.Replace? || c.Delete? || c.MoveEntry?
    ensures Explained(cur, loaded, c, q, ChangeRefusal(cur, loaded, c, q).value)
  {
    if c.MoveEntry? {
      assert Touches(c, SourceKey(c)) && Touches(c, DestinationKey(c));
    }
  }

  predicate Counts(c: Change)
  {
    || c.AdvanceCookie? || c.AdvanceQidPath? || c.BumpPolicyGeneration? || c.BumpInodeGeneration?
    || c.BumpDirectoryGeneration? || c.AdjustLinkCount? || c.AdjustOpenPinCount? || c.BumpLockGeneration?
  }

  lemma CounterExplained(cur: Table, loaded: Table, c: Change, q: Request)
    requires WellKeyed(cur) && WellKeyed(loaded) && ChangeRefusal(cur, loaded, c, q).Some? && Counts(c)
    ensures Explained(cur, loaded, c, q, ChangeRefusal(cur, loaded, c, q).value)
  {
    var k := PrimaryKey(c);
    assert Touches(c, k);
    assert k in loaded ==> Names(loaded[k], k);
  }

  lemma ContentExplained(cur: Table, loaded: Table, c: Change, q: Request)
    requires WellKeyed(cur) && WellKeyed(loaded) && ChangeRefusal(cur, loaded, c, q).Some?
    requires c.PublishContent? || c.RewrapContentMetadata? || c.PublishXattrStaging?
    ensures Explained(cur, loaded, c, q, ChangeRefusal(cur, loaded, c, q).value)
  {
    hide PublicationError;
    var k := PrimaryKey(c);
    assert Touches(c, k);
    assert k in loaded ==> Names(loaded[k], k);
    if c.PublishXattrStaging? {
      assert Touches(c, XattrKey(c.inode, c.name));
    }
  }

  /** A refused change is refused for a reason of its own. */
  lemma RefusalExplained(cur: Table, loaded: Table, c: Change, q: Request)
    requires WellKeyed(cur) && WellKeyed(loaded) && ChangeRefusal(cur, loaded, c, q).Some?
    ensures Explained(cur, loaded, c, q, ChangeRefusal(cur, loaded, c, q).value)
  {
    if Counts(c) {
      CounterExplained(cur, loaded, c, q);
    } else if c.Insert? || c.Replace? || c.Delete? || c.MoveEntry? {
      RecordExplained(cur, loaded, c, q);
    } else {
      ContentExplained(cur, loaded, c, q);
    }
  }

  /** A change the checks let through is refused by a constraint: for good when a row it
      writes is not allowed, for a recheck when only another row has its unique value. */
  lemma ConstraintExplained(cur: Table, loaded: Table, c: Change, q: Request, revision: Revision)
    requires ChangeRefusal(cur, loaded, c, q).None? && ApplyChange(cur, loaded, c, q, revision).Refused?
    ensures var w := Writes(cur, loaded, c, revision);
            match ApplyChange(cur, loaded, c, q, revision).why
            case ConstraintViolated(recheck) =>
              && (!recheck <==> exists k :: k in w.written && !SchemaAllows(w.written[k]))
              && (recheck ==> exists k, j :: k in w.written && j in cur - w.removed && j != k
                                             && SameUnique(cur[j], w.written[k]))
            case _ => false
  {
    var w := Writes(cur, loaded, c, revision);
    var k :| k in w.written && Violates(cur - w.removed, k, w.written[k]);
    if SchemaAllows(w.written[k]) {
      var j :| j in cur - w.removed && j != k && SameUnique((cur - w.removed)[j], w.written[k]);
      assert SameUnique(cur[j], w.written[k]);
    }
  }

  /** A refused list is refused for the reason of its first refused change. */
  lemma {:induction false} FirstRefused(t: Table, loaded: Table, changes: seq<Change>, q: Request, revision: Revision)
      returns (n: nat, cur: Table)
    requires ApplyAll(t, loaded, changes, q, revision).Refused?
    ensures n < |changes| && ApplyAll(t, loaded, changes[..n], q, revision) == Done(cur)
    ensures ApplyAll(t, loaded, changes, q, revision) == ApplyChange(cur, loaded, changes[n], q, revision)
    decreases |changes|
  {
    hide ApplyChange;
    var done := changes[..|changes| - 1];
    if ApplyAll(t, loaded, done, q, revision).Refused? {
      n, cur := FirstRefused(t, loaded, done, q, revision);
      assert done[..n] == changes[..n];
    } else {
      n, cur := |changes| - 1, ApplyAll(t, loaded, done, q, revision).table;
    }
  }
}
