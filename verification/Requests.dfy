/** Declarative commit requests and their preflight
    (crates/w9pt-fs-state/src/commit.rs). */
module Requests {
  import opened Values
  import opened Records

  /** Identity of the content version a preparation started from. */
  datatype Base = Base(generation: nat, digest: Bytes)

  function Zeros(n: nat): (r: Bytes)
    ensures |r| == n && forall i | 0 <= i < n :: r[i] == 0
  {
    if n == 0 then [] else Zeros(n - 1) + [0]
  }

  const ZERO_DIGEST: Bytes := Zeros(32)

  /** Distinguished base of a file that was never published. */
  const NEW_FILE: Base := Base(0, ZERO_DIGEST)

  datatype Binding = Binding(
    file: FileId, context: ContextId, contextRevision: Revision, policyFormat: nat,
    policyBytes: Bytes, keyCommitment: Option<Bytes>)

  datatype Prepared = Prepared(
    content: ContentRef, changed: bool, mutation: MutationId, base: Base, binding: Binding)

  datatype AttributeUpdate = AttributeUpdate(
    mode: Option<nat>, owner: Option<Bytes>, group: Option<Bytes>, accessed: Option<int>,
    modified: Option<int>, changed: Option<int>, created: Option<int>)

  datatype Publication = Publication(
    inode: InodeId, expectedBase: Base, prepared: Prepared, logicalSize: nat,
    dataGeneration: nat, inodeGeneration: nat, attributes: AttributeUpdate)

  datatype Rewrap = Rewrap(
    file: FileId, expectedContext: ContextId, expectedRevision: Revision, wrappedKey: Bytes)

  type Positive = n: nat | n > 0 witness 1

  datatype Change =
    | Insert(key: Key, record: Record)
    | Replace(key: Key, record: Record)
    | Delete(key: Key)
    | MoveEntry(sourceParent: InodeId, sourceName: Bytes, destination: Entry)
    | RetainResult
    | AdvanceCookie(count: Positive)
    | AdvanceQidPath(count: Positive)
    | BumpPolicyGeneration
    | BumpInodeGeneration(inode: InodeId)
    | BumpDirectoryGeneration(inode: InodeId)
    | AdjustLinkCount(inode: InodeId, adjustment: CounterAdjustment)
    | AdjustOpenPinCount(inode: InodeId, adjustment: CounterAdjustment)
    | BumpLockGeneration(inode: InodeId, lock: LockId)
    | PublishContent(publication: Publication)
    | RewrapContentMetadata(rewrap: Rewrap)
    | PublishXattrStaging(staging: StagingId, inode: InodeId, name: Bytes)

  datatype Fence = Fence(scope: ScopeId, holder: WriterId, lease: LeaseId, token: nat)

  datatype MutationContext = MutationContext(
    id: MutationId, fingerprint: Bytes, client: ClientId, retention: nat)

  datatype Precondition =
    | RecordAbsent(key: Key)
    | RecordRevision(key: Key, expected: Revision)
    | InodeGeneration(inode: InodeId, generation: nat)
    | DataGeneration(inode: InodeId, dataGeneration: Option<nat>)
    | DirectoryGenerationIs(inode: InodeId, generation: nat)
    | ContentBaseIs(inode: InodeId, base: Base)
    | LinkCountIs(inode: InodeId, count: nat)
    | OpenPinCountIs(inode: InodeId, count: nat)
    | PolicyGenerationIs(generation: nat)
    | ExactFence(fence: Fence)

  datatype Request = Request(
    mutation: MutationContext, fence: Fence, preconditions: seq<Precondition>,
    changes: seq<Change>, result: Bytes)

  datatype PublishError =
    | NotRegularFile | MutationIdMismatch | PreparationBaseMismatch | AuthoritativeBaseMismatch
    | ContentFileMismatch | ContentContextMismatch | LogicalSizeMismatch | DataGenerationMismatch
    | InodeGenerationMismatch | GenerationOverflow | InvalidSelectedMode

  datatype Malformed =
    | InvalidRecord
    | InvalidPublication(error: PublishError)
    | DuplicateChangeTarget(key: Key)
    | Arithmetic
    | ContentReplacementRequiresPreparedPublication
    | StoreOwnedRecord(key: Key)
    | ProtectedContentMetadata(key: Key)
    | InvalidContentMetadataCreation
    | InvalidContentMetadataRewrap
    | EmptyChanges
    | DirectoryCookieAllocation
    | QidPathAllocation
    | NonMonotonicTransition
    | NamespaceGeneration
    | XattrPublicationRequired
    | InvalidXattrStaging
    | TooManyKeys

  // ---------------------------------------------------------------- keys

  function SourceKey(c: Change): Key
    requires c.MoveEntry?
  {
    EntryKey(c.sourceParent, c.sourceName)
  }

  function DestinationKey(c: Change): Key
    requires c.MoveEntry?
  {
    EntryKey(c.destination.parent, c.destination.name)
  }

  function PrimaryKey(c: Change): Key
  {
    match c
    case Insert(k, _) => k
    case Replace(k, _) => k
    case Delete(k) => k
    case MoveEntry(p, n, _) => EntryKey(p, n)
    case RetainResult => FilesystemKey
    case AdvanceCookie(_) => FilesystemKey
    case AdvanceQidPath(_) => FilesystemKey
    case BumpPolicyGeneration => FilesystemKey
    case BumpInodeGeneration(i) => InodeKey(i)
    case BumpDirectoryGeneration(i) => InodeKey(i)
    case AdjustLinkCount(i, _) => InodeKey(i)
    case AdjustOpenPinCount(i, _) => OrphanKey(i)
    case BumpLockGeneration(i, l) => LockKey(i, l)
    case PublishContent(p) => InodeKey(p.inode)
    case RewrapContentMetadata(r) => ContentMetadataKey(r.file)
    case PublishXattrStaging(s, _, _) => XattrStagingKey(s)
  }

  /** Every key the change writes, in the source's order. */
  function Affected(c: Change): seq<Key>
  {
    match c
    case MoveEntry(_, _, _) => [SourceKey(c), DestinationKey(c)]
    case RetainResult => []
    case PublishXattrStaging(s, i, n) => [XattrStagingKey(s), XattrKey(i, n)]
    case _ => [PrimaryKey(c)]
  }

  predicate Touches(c: Change, k: Key)
  {
    k in Affected(c)
  }

  predicate Allocates(c: Change)
  {
    c.AdvanceCookie? || c.AdvanceQidPath?
  }

  /** Two changes may meet only on the header, as its two independent allocators. */
  predicate MayShare(c: Change, d: Change, k: Key)
  {
    k == FilesystemKey && Allocates(c) && Allocates(d) && c.AdvanceCookie? != d.AdvanceCookie?
  }

  ghost predicate DistinctTargets(changes: seq<Change>)
  {
    && (forall x, y, k | 0 <= x < y < |changes| && Touches(changes[x], k) && Touches(changes[y], k)
          :: MayShare(changes[x], changes[y], k))
    && (forall x | 0 <= x < |changes| && changes[x].MoveEntry?
          :: SourceKey(changes[x]) != DestinationKey(changes[x]))
  }

  // ----------------------------------------------------------- preflight

  function PublishShapeError(p: Publication, mutation: MutationContext): Option<PublishError>
  {
    if p.prepared.mutation != mutation.id then Some(MutationIdMismatch)
    else if p.prepared.base != p.expectedBase then Some(PreparationBaseMismatch)
    else if p.logicalSize != p.prepared.content.logicalSize then Some(LogicalSizeMismatch)
    else if p.dataGeneration != p.prepared.content.generation then Some(DataGenerationMismatch)
    else if p.attributes.mode.Some? && p.attributes.mode.value > 0x0FFF then Some(InvalidSelectedMode)
    else None
  }

  /** The per-change rejections, in order. */
  function ShapeError(c: Change, mutation: MutationContext): Option<Malformed>
  {
    match c
    case Insert(k, r) =>
      if !Names(r, k) then Some(InvalidRecord)
      else if k.MutationKey? || k.WriterLeaseKey? then Some(StoreOwnedRecord(k))
      else if r.InodeRecord? && Content(r.node).Some?
        then Some(ContentReplacementRequiresPreparedPublication)
      else None
    case Replace(k, r) =>
      if !Names(r, k) then Some(InvalidRecord)
      else if k.MutationKey? || k.WriterLeaseKey? then Some(StoreOwnedRecord(k))
      else if k.ContentMetadataKey? then Some(ProtectedContentMetadata(k))
      else None
    case Delete(k) =>
      if k.MutationKey? || k.WriterLeaseKey? then Some(StoreOwnedRecord(k))
      else if k.ContentMetadataKey? then Some(ProtectedContentMetadata(k))
      else None
    case PublishContent(p) =>
      var error := PublishShapeError(p, mutation);
      if error.Some? then Some(InvalidPublication(error.value)) else None
    case RewrapContentMetadata(r) =>
      if r.wrappedKey == [] then Some(InvalidContentMetadataRewrap) else None
    case _ => None
  }

  /** `c` inserts content metadata and `d` the unpublished inode it belongs to. */
  predicate PairsWithInode(c: Change, d: Change)
  {
    && c.Insert? && c.key.ContentMetadataKey? && c.record.ContentMetadataRecord?
    && d.Insert? && d.record.InodeRecord?
    && d.key == InodeKey(c.record.metadata.owner)
    && ContentFile(d.record.node) == Some(c.key.file)
    && d.record.node.context == Some(c.record.metadata.context)
    && Content(d.record.node).None?
  }

  /** `c` inserts a regular inode and `d` the metadata of its content file. */
  predicate PairsWithMetadata(c: Change, d: Change)
  {
    && c.Insert? && c.key.InodeKey? && c.record.InodeRecord? && ContentFile(c.record.node).Some?
    && d.Insert? && d.key == ContentMetadataKey(ContentFile(c.record.node).value)
    && d.record.ContentMetadataRecord?
    && d.record.metadata.owner == c.key.inode
    && c.record.node.context == Some(d.record.metadata.context)
  }

  predicate NeedsInode(c: Change)
  {
    c.Insert? && c.key.ContentMetadataKey? && c.record.ContentMetadataRecord?
  }

  predicate NeedsMetadata(c: Change)
  {
    c.Insert? && c.key.InodeKey? && c.record.InodeRecord? && ContentFile(c.record.node).Some?
  }

  ghost predicate ContentPaired(changes: seq<Change>)
  {
    && (forall c | c in changes && NeedsInode(c) :: exists d :: d in changes && PairsWithInode(c, d))
    && (forall c | c in changes && NeedsMetadata(c)
          :: exists d :: d in changes && PairsWithMetadata(c, d))
  }

  ghost predicate PreflightOk(q: Request)
  {
    && q.changes != []
    && DistinctTargets(q.changes)
    && (forall c | c in q.changes :: ShapeError(c, q.mutation).None?)
    && ContentPaired(q.changes)
  }

  /** Which changes pass the per-change checks, field by field. */
  predicate Shaped(c: Change, mutation: MutationContext)
  {
    match c
    case Insert(k, r) =>
      Names(r, k) && !r.MutationRecord? && !r.WriterLeaseRecord?
      && (r.InodeRecord? && r.node.data.RegularData? ==> r.node.data.content.None?)
    case Replace(k, r) =>
      Names(r, k) && !r.MutationRecord? && !r.WriterLeaseRecord? && !r.ContentMetadataRecord?
    case Delete(k) => !k.MutationKey? && !k.WriterLeaseKey? && !k.ContentMetadataKey?
    case PublishContent(p) =>
      && p.prepared.mutation == mutation.id && p.prepared.base == p.expectedBase
      && p.prepared.content.logicalSize == p.logicalSize && p.prepared.content.generation == p.dataGeneration
      && (p.attributes.mode.Some? ==> p.attributes.mode.value <= 4095)
    case RewrapContentMetadata(r) => |r.wrappedKey| > 0
    case _ => true
  }

  /** The per-change checks pass exactly the shaped changes, and a rejection names what
      is wrong with the change. */
  lemma ShapeMeans(c: Change, mutation: MutationContext)
    ensures ShapeError(c, mutation).None? <==> Shaped(c, mutation)
    ensures match ShapeError(c, mutation)
            case None => true
            case Some(InvalidRecord) => (c.Insert? || c.Replace?) && !Names(c.record, c.key)
            case Some(StoreOwnedRecord(k)) =>
              (c.Insert? || c.Replace? || c.Delete?) && c.key == k && (k.MutationKey? || k.WriterLeaseKey?)
            case Some(ProtectedContentMetadata(k)) => (c.Replace? || c.Delete?) && c.key == k && k.ContentMetadataKey?
            case Some(ContentReplacementRequiresPreparedPublication) => c.Insert? && c.record.InodeRecord?
            case Some(InvalidPublication(_)) => c.PublishContent?
            case Some(InvalidContentMetadataRewrap) => c.RewrapContentMetadata?
            case _ => false
  {
  }

  predicate InsertsNode(changes: seq<Change>, n: Inode)
  {
    Insert(InodeKey(n.id), InodeRecord(n)) in changes
  }

  predicate InsertsMetadata(changes: seq<Change>, m: ContentMetadata)
  {
    Insert(ContentMetadataKey(m.file), ContentMetadataRecord(m)) in changes
  }

  /** The metadata row belongs to the regular file. */
  predicate BelongsTo(m: ContentMetadata, n: Inode)
  {
    m.owner == n.id && n.data.RegularData? && n.data.contentFile == m.file && n.context == Some(m.context)
  }

  ghost predicate Paired(changes: seq<Change>)
  {
    && (forall m | InsertsMetadata(changes, m) :: exists n :: InsertsNode(changes, n) && BelongsTo(m, n))
    && (forall n | InsertsNode(changes, n) && n.data.RegularData?
          :: exists m :: InsertsMetadata(changes, m) && BelongsTo(m, n))
  }

  /** For changes under their own keys a partner is a row that belongs. */
  lemma PartnersBelong(c: Change, d: Change, mutation: MutationContext)
    requires Shaped(c, mutation) && Shaped(d, mutation)
    ensures NeedsInode(c) ==> c == Insert(ContentMetadataKey(c.record.metadata.file), c.record)
    ensures NeedsMetadata(c) ==> c == Insert(InodeKey(c.record.node.id), c.record) && c.record.node.data.RegularData?
    ensures NeedsInode(c) ==>
      (PairsWithInode(c, d) <==>
         && d.Insert? && d.record.InodeRecord? && d == Insert(InodeKey(d.record.node.id), d.record)
         && BelongsTo(c.record.metadata, d.record.node))
    ensures NeedsMetadata(c) ==>
      (PairsWithMetadata(c, d) <==>
         && d.Insert? && d.record.ContentMetadataRecord?
         && d == Insert(ContentMetadataKey(d.record.metadata.file), d.record)
         && BelongsTo(d.record.metadata, c.record.node))
  {
  }

  lemma PairedForward(changes: seq<Change>, mutation: MutationContext)
    requires ContentPaired(changes) && forall c | c in changes :: Shaped(c, mutation)
    ensures Paired(changes)
  {
    hide PairsWithInode, PairsWithMetadata, Shaped, BelongsTo;
    forall m | InsertsMetadata(changes, m) ensures exists n :: InsertsNode(changes, n) && BelongsTo(m, n) {
      var c := Insert(ContentMetadataKey(m.file), ContentMetadataRecord(m));
      assert NeedsInode(c);
      var d :| d in changes && PairsWithInode(c, d);
      PartnersBelong(c, d, mutation);
      assert InsertsNode(changes, d.record.node);
    }
    forall n | InsertsNode(changes, n) && n.data.RegularData?
      ensures exists m :: InsertsMetadata(changes, m) && BelongsTo(m, n)
    {
      var c := Insert(InodeKey(n.id), InodeRecord(n));
      assert NeedsMetadata(c);
      var d :| d in changes && PairsWithMetadata(c, d);
      PartnersBelong(c, d, mutation);
      assert InsertsMetadata(changes, d.record.metadata);
    }
  }

  lemma PairedBack(changes: seq<Change>, mutation: MutationContext)
    requires Paired(changes) && forall c | c in changes :: Shaped(c, mutation)
    ensures ContentPaired(changes)
  {
    hide PairsWithInode, PairsWithMetadata, Shaped, BelongsTo;
    forall c | c in changes && NeedsInode(c) ensures exists d :: d in changes && PairsWithInode(c, d) {
      PartnersBelong(c, c, mutation);
      assert InsertsMetadata(changes, c.record.metadata);
      var n :| InsertsNode(changes, n) && BelongsTo(c.record.metadata, n);
      PartnersBelong(c, Insert(InodeKey(n.id), InodeRecord(n)), mutation);
    }
    forall c | c in changes && NeedsMetadata(c) ensures exists d :: d in changes && PairsWithMetadata(c, d) {
      PartnersBelong(c, c, mutation);
      assert InsertsNode(changes, c.record.node);
      var m :| InsertsMetadata(changes, m) && BelongsTo(m, c.record.node);
      PartnersBelong(c, Insert(ContentMetadataKey(m.file), ContentMetadataRecord(m)), mutation);
    }
  }

  /** Preflight passes exactly the nonempty lists of shaped changes on disjoint targets
      that insert content metadata and regular files in pairs that belong together. */
  lemma PreflightMeans(q: Request)
    ensures PreflightOk(q) <==>
      && q.changes != [] && DistinctTargets(q.changes)
      && (forall c | c in q.changes :: Shaped(c, q.mutation)) && Paired(q.changes)
  {
    hide ShapeError, Shaped, DistinctTargets, ContentPaired, Paired;
    forall c ensures ShapeError(c, q.mutation).None? <==> Shaped(c, q.mutation) {
      ShapeMeans(c, q.mutation);
    }
    if forall c | c in q.changes :: Shaped(c, q.mutation) {
      if ContentPaired(q.changes) {
        PairedForward(q.changes, q.mutation);
      }
      if Paired(q.changes) {
        PairedBack(q.changes, q.mutation);
      }
    }
  }

  // ------------------------------------------------- distinct-target scan

  function Targets(c: Change): (r: set<Key>)
    ensures forall k :: k in r <==> Touches(c, k)
  {
    var keys := Affected(c);
    set k | k in keys
  }

  /** The keys a change list claims. */
  function Claimed(changes: seq<Change>): (r: set<Key>)
  {
    if changes == [] then {}
    else Claimed(changes[..|changes| - 1]) + Targets(changes[|changes| - 1])
  }

  lemma {:induction false} ClaimedByOne(changes: seq<Change>, k: Key)
    ensures k in Claimed(changes) <==> exists x :: 0 <= x < |changes| && Touches(changes[x], k)
    decreases |changes|
  {
    if changes != [] {
      var init := changes[..|changes| - 1];
      ClaimedByOne(init, k);
      if x :| 0 <= x < |changes| && Touches(changes[x], k) {
        assert x < |init| ==> init[x] == changes[x];
      }
      if k in Claimed(init) {
        var x :| 0 <= x < |init| && Touches(init[x], k);
        assert changes[x] == init[x];
      } else if k in Claimed(changes) {
        assert Touches(changes[|changes| - 1], k);
      }
    }
  }

  predicate HeaderOnlyAllocated(changes: seq<Change>)
  {
    forall c | c in changes && Touches(c, FilesystemKey) :: Allocates(c)
  }

  predicate Repeats(changes: seq<Change>, c: Change)
  {
    Allocates(c) && exists d :: d in changes && Allocates(d) && d.AdvanceCookie? == c.AdvanceCookie?
  }

  /** The key `k` of `c` may not be claimed after `targets`. */
  predicate Clashes(c: Change, targets: set<Key>, onlyAllocations: bool, k: Key)
  {
    if k.FilesystemKey? then k in targets && !(Allocates(c) && onlyAllocations)
    else k in targets || (c.MoveEntry? && SourceKey(c) == DestinationKey(c))
  }

  lemma OverlapNotDistinct(done: seq<Change>, c: Change, x: nat, k: Key)
    requires x < |done| && Touches(done[x], k) && Touches(c, k) && !MayShare(done[x], c, k)
    ensures !DistinctTargets(done + [c])
  {
    var all := done + [c];
    assert all[x] == done[x] && all[|done|] == c;
  }

  lemma ClashNotDistinct(done: seq<Change>, c: Change, k: Key)
    requires Touches(c, k) && Clashes(c, Claimed(done), HeaderOnlyAllocated(done), k)
    ensures !DistinctTargets(done + [c])
  {
    ClaimedByOne(done, k);
    if k !in Claimed(done) {
      assert (done + [c])[|done|] == c;
    } else if k.FilesystemKey? && Allocates(c) {
      var d :| d in done && Touches(d, k) && !Allocates(d);
      var x :| 0 <= x < |done| && done[x] == d;
      OverlapNotDistinct(done, c, x, k);
    } else {
      var x :| 0 <= x < |done| && Touches(done[x], k);
      OverlapNotDistinct(done, c, x, k);
    }
  }

  lemma RepeatNotDistinct(done: seq<Change>, c: Change)
    requires Repeats(done, c)
    ensures !DistinctTargets(done + [c])
  {
    var d :| d in done && Allocates(d) && d.AdvanceCookie? == c.AdvanceCookie?;
    var x :| 0 <= x < |done| && done[x] == d;
    OverlapNotDistinct(done, c, x, FilesystemKey);
  }

  /** A change without clash or repetition extends a disjoint list. */
  lemma NoClashExtends(done: seq<Change>, c: Change)
    requires DistinctTargets(done) && !Repeats(done, c)
    requires forall k | Touches(c, k) :: !Clashes(c, Claimed(done), HeaderOnlyAllocated(done), k)
    ensures DistinctTargets(done + [c])
  {
    var all := done + [c];
    if c.MoveEntry? {
      assert Touches(c, SourceKey(c));
    }
    forall x, y, k | 0 <= x < y < |all| && Touches(all[x], k) && Touches(all[y], k)
      ensures MayShare(all[x], all[y], k)
    {
      if y < |done| {
        assert all[x] == done[x] && all[y] == done[y];
      } else {
        ClaimedByOne(done, k);
        assert all[x] == done[x] && done[x] in done;
        assert !Clashes(c, Claimed(done), HeaderOnlyAllocated(done), k);
      }
    }
  }

  lemma DistinctPrefix(changes: seq<Change>, n: nat)
    requires n <= |changes| && DistinctTargets(changes)
    ensures DistinctTargets(changes[..n])
  {
    var prefix := changes[..n];
    forall x, y, k | 0 <= x < y < |prefix| && Touches(prefix[x], k) && Touches(prefix[y], k)
      ensures MayShare(prefix[x], prefix[y], k)
    {
      assert prefix[x] == changes[x] && prefix[y] == changes[y];
    }
  }

  /** The inner loop over one change's keys. */
  method ClaimTargets(c: Change, claimed: set<Key>, onlyAllocations: bool)
    returns (clash: Option<Key>, targets: set<Key>)
    ensures clash.None? ==> forall k | Touches(c, k) :: !Clashes(c, claimed, onlyAllocations, k)
    ensures clash.None? ==> targets == claimed + Targets(c)
    ensures clash.Some? ==>
      Touches(c, clash.value) && Clashes(c, claimed, onlyAllocations, clash.value)
  {
    targets := claimed;
    var keys := Affected(c);
    for j := 0 to |keys|
      invariant targets == claimed + set k | k in keys[..j]
      invariant forall x | 0 <= x < j :: if keys[x].FilesystemKey?
                  then !Clashes(c, claimed, onlyAllocations, keys[x]) else keys[x] !in claimed
      invariant forall x, y | 0 <= x < y < j :: keys[x] != keys[y]
    {
      var key := keys[j];
      if key in targets && (!key.FilesystemKey? || !(Allocates(c) && onlyAllocations)) {
        if key !in claimed {
          assert key in keys[..j];
          assert j == 1 && c.MoveEntry?;
        }
        return Some(key), targets;
      }
      targets := targets + {key};
      assert keys[..j + 1] == keys[..j] + [key];
    }
    assert keys[..|keys|] == keys;
    if c.MoveEntry? {
      assert keys[0] == SourceKey(c) && keys[1] == DestinationKey(c);
    }
    clash := None;
  }

  /** What the scan has seen of the changes before the current one. */
  datatype Seen = Seen(targets: set<Key>, onlyAllocations: bool, cookie: bool, qid: bool)

  ghost predicate Tracks(seen: Seen, done: seq<Change>)
  {
    && seen.targets == Claimed(done)
    && seen.onlyAllocations == HeaderOnlyAllocated(done)
    && (seen.cookie <==> exists d :: d in done && d.AdvanceCookie?)
    && (seen.qid <==> exists d :: d in done && d.AdvanceQidPath?)
  }

  lemma TracksNext(seen: Seen, done: seq<Change>, c: Change)
    requires Tracks(seen, done)
    ensures Tracks(Seen(seen.targets + Targets(c),
                        seen.onlyAllocations && (FilesystemKey in Affected(c) ==> Allocates(c)),
                        seen.cookie || c.AdvanceCookie?, seen.qid || c.AdvanceQidPath?), done + [c])
  {
    var all := done + [c];
    assert all[..|all| - 1] == done && all[|all| - 1] == c;
    assert forall d :: d in all <==> d in done || d == c;
    assert c in all;
  }

  /** One round of the scan. */
  method ClaimChange(seen: Seen, c: Change, ghost done: seq<Change>)
    returns (duplicate: Option<Key>, next: Seen)
    requires DistinctTargets(done) && Tracks(seen, done)
    ensures duplicate.None? <==> DistinctTargets(done + [c])
    ensures duplicate.None? ==> Tracks(next, done + [c])
    ensures duplicate.Some? ==> Touches(c, duplicate.value)
  {
    if (c.AdvanceCookie? && seen.cookie) || (c.AdvanceQidPath? && seen.qid) {
      RepeatNotDistinct(done, c);
      return Some(FilesystemKey), seen;
    }
    var clash, targets := ClaimTargets(c, seen.targets, seen.onlyAllocations);
    if clash.Some? {
      ClashNotDistinct(done, c, clash.value);
      return clash, seen;
    }
    NoClashExtends(done, c);
    TracksNext(seen, done, c);
    next := Seen(targets, seen.onlyAllocations && (FilesystemKey in Affected(c) ==> Allocates(c)),
                 seen.cookie || c.AdvanceCookie?, seen.qid || c.AdvanceQidPath?);
    duplicate := None;
  }

  /** The duplicate-target part of `validate_preflight`, also the loop of
      `canonical_affected_keys`: it accepts exactly the disjoint change lists and
      otherwise names a key some change claims. */
  method CheckDistinctTargets(changes: seq<Change>) returns (duplicate: Option<Key>, targets: set<Key>)
    ensures duplicate.None? <==> DistinctTargets(changes)
    ensures duplicate.None? ==> targets == Claimed(changes)
    ensures duplicate.Some? ==> exists c :: c in changes && Touches(c, duplicate.value)
  {
    hide DistinctTargets, Tracks, Touches, Claimed;
    var seen := Seen({}, true, false, false);
    NothingTracked();
    for i := 0 to |changes|
      invariant DistinctTargets(changes[..i])
      invariant Tracks(seen, changes[..i])
    {
      assert changes[..i + 1] == changes[..i] + [changes[i]];
      var clash, next := ClaimChange(seen, changes[i], changes[..i]);
      if clash.Some? {
        if DistinctTargets(changes) {
          DistinctPrefix(changes, i + 1);
        }
        assert changes[i] in changes;
        return clash, seen.targets;
      }
      seen := next;
    }
    assert changes[..|changes|] == changes;
    TracksTargets(seen, changes);
    return None, seen.targets;
  }

  lemma NothingTracked()
    ensures DistinctTargets([]) && Tracks(Seen({}, true, false, false), [])
  {
  }

  lemma TracksTargets(seen: Seen, changes: seq<Change>)
    requires Tracks(seen, changes)
    ensures seen.targets == Claimed(changes)
  {
  }

  method FindPartner(changes: seq<Change>, c: Change) returns (found: bool)
    ensures NeedsInode(c) ==> (found <==> exists d :: d in changes && PairsWithInode(c, d))
    ensures NeedsMetadata(c) ==> (found <==> exists d :: d in changes && PairsWithMetadata(c, d))
  {
    found := false;
    for i := 0 to |changes|
      invariant !found ==> forall d | d in changes[..i] :: !PairsWithInode(c, d) && !PairsWithMetadata(c, d)
      invariant found ==> exists d :: d in changes && (PairsWithInode(c, d) || PairsWithMetadata(c, d))
    {
      if PairsWithInode(c, changes[i]) || PairsWithMetadata(c, changes[i]) {
        found := true;
      }
      assert changes[..i + 1] == changes[..i] + [changes[i]];
    }
    assert changes[..|changes|] == changes;
  }

  /** The declared keys and the ledger row fit one event. */
  predicate KeysWithin(q: Request, maxKeys: nat)
  {
    |Claimed(q.changes)| + 1 <= maxKeys
  }

  /** `validate_preflight` without its other resource bounds: it accepts exactly the
      well-shaped requests with disjoint targets, paired content metadata and an event
      within the key limit. */
  method ValidatePreflight(q: Request, maxKeys: nat) returns (error: Option<Malformed>)
    ensures error.None? <==> PreflightOk(q) && KeysWithin(q, maxKeys)
  {
    hide DistinctTargets, Claimed, ShapeError, PairsWithInode, PairsWithMetadata, NeedsInode, NeedsMetadata;
    if q.changes == [] {
      return Some(EmptyChanges);
    }
    var duplicate, targets := CheckDistinctTargets(q.changes);
    if duplicate.Some? {
      return Some(DuplicateChangeTarget(duplicate.value));
    }
    for i := 0 to |q.changes|
      invariant forall c | c in q.changes[..i] :: ShapeError(c, q.mutation).None?
    {
      error := ShapeError(q.changes[i], q.mutation);
      if error.Some? {
        return;
      }
      assert q.changes[..i + 1] == q.changes[..i] + [q.changes[i]];
    }
    assert q.changes[..|q.changes|] == q.changes;
    for i := 0 to |q.changes|
      invariant forall c | c in q.changes[..i] && NeedsInode(c)
                  :: exists d :: d in q.changes && PairsWithInode(c, d)
      invariant forall c | c in q.changes[..i] && NeedsMetadata(c)
                  :: exists d :: d in q.changes && PairsWithMetadata(c, d)
    {
      if NeedsInode(q.changes[i]) || NeedsMetadata(q.changes[i]) {
        var found := FindPartner(q.changes, q.changes[i]);
        if !found {
          return Some(InvalidContentMetadataCreation);
        }
      }
      assert q.changes[..i + 1] == q.changes[..i] + [q.changes[i]];
    }
    assert q.changes[..|q.changes|] == q.changes;
    return if |targets| + 1 > maxKeys then Some(TooManyKeys) else None;
  }

  // --------------------------------------------------------- publication

  function ContentBase(n: Inode): Option<Base>
  {
    match n.data
    case RegularData(_, Some(c), _) => Some(Base(c.generation, c.manifestDigest))
    case RegularData(_, None, _) => Some(NEW_FILE)
    case _ => None
  }

  /** `validate_publish_content_with_metadata`. */
  function PublicationError(p: Publication, mutation: MutationContext, n: Inode, c: ContentMetadata)
    : Option<PublishError>
  {
    if !n.data.RegularData? then Some(NotRegularFile)
    else if p.prepared.mutation != mutation.id then Some(MutationIdMismatch)
    else if p.prepared.base != p.expectedBase then Some(PreparationBaseMismatch)
    else if ContentBase(n) != Some(p.expectedBase) then Some(AuthoritativeBaseMismatch)
    else if ContentFile(n) != Some(p.prepared.content.file) then Some(ContentFileMismatch)
    else if p.logicalSize != p.prepared.content.logicalSize then Some(LogicalSizeMismatch)
    else
      var next := if p.prepared.changed then CheckedNext(p.expectedBase.generation)
                  else Some(p.expectedBase.generation);
      if next.None? then Some(GenerationOverflow)
      else if p.prepared.content.generation != next.value || p.dataGeneration != next.value
        then Some(DataGenerationMismatch)
      else if CheckedNext(n.inodeGeneration).None? then Some(GenerationOverflow)
      else if p.inodeGeneration != n.inodeGeneration + 1 then Some(InodeGenerationMismatch)
      else if
        || n.context != Some(p.prepared.binding.context)
        || c.owner != n.id
        || c.file != p.prepared.binding.file
        || c.context != p.prepared.binding.context
        || c.policyFormat != p.prepared.binding.policyFormat
        || c.policyBytes != p.prepared.binding.policyBytes
        || c.keyCommitment != p.prepared.binding.keyCommitment
        || c.revision != p.prepared.binding.contextRevision
        then Some(ContentContextMismatch)
      else None
  }

  function Or<T>(o: Option<T>, default: T): T
  {
    if o.Some? then o.value else default
  }

  function Published(n: Inode, p: Publication, revision: Revision): Inode
  {
    var a := p.attributes;
    var times := Timestamps(
      Or(a.accessed, n.attributes.times.accessed), Or(a.modified, n.attributes.times.modified),
      Or(a.changed, n.attributes.times.changed), Or(a.created, n.attributes.times.created));
    n.(revision := revision,
       attributes := Attributes(Or(a.mode, n.attributes.mode), Or(a.owner, n.attributes.owner),
                                Or(a.group, n.attributes.group), times),
       logicalSize := p.logicalSize,
       inodeGeneration := p.inodeGeneration,
       data := RegularData(p.prepared.content.file, Some(p.prepared.content), p.dataGeneration))
  }

  // -------------------------------------------------------------- replay

  datatype Replay =
    | ExactReplay(revision: Revision, result: Bytes)
    | MismatchId | MismatchFingerprint | MismatchClient | MismatchRetention

  /** `classify_record`: compares a retained ledger row with a presented context. */
  function Classify(c: MutationContext, m: Mutation): Replay
  {
    if c.id != m.id then MismatchId
    else if c.fingerprint != m.fingerprint then MismatchFingerprint
    else if c.client != m.client then MismatchClient
    else if c.retention != m.retention then MismatchRetention
    else ExactReplay(m.committedRevision, m.result)
  }
}
