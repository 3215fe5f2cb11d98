/** Keys and tagged values of the authoritative record families
    (crates/w9pt-fs-state/src/records.rs, content_metadata.rs). One table holds
    one filesystem, so keys carry no filesystem identity. */
module Records {
  import opened Values

  type InodeId = nat
  type OpenId = nat
  type LockId = nat
  type FileId = nat
  type ContextId = nat
  type ClientId = nat
  type MutationId = nat
  type ScopeId = nat
  type WriterId = nat
  type LeaseId = nat
  type OperationId = nat
  type StagingId = nat
  type Revision = nat

  datatype Key =
    | FilesystemKey
    | InodeKey(inode: InodeId)
    | ContentMetadataKey(file: FileId)
    | EntryKey(parent: InodeId, name: Bytes)
    | OpenKey(open: OpenId)
    | OpenPinKey(inode: InodeId, open: OpenId)
    | OrphanKey(inode: InodeId)
    | LockKey(inode: InodeId, lock: LockId)
    | XattrKey(inode: InodeId, name: Bytes)
    | XattrStagingKey(staging: StagingId)
    | MutationKey(mutation: MutationId)
    | WriterLeaseKey(scope: ScopeId)

  datatype Header = Header(
    root: InodeId, nextQidPath: nat, nextCookie: nat, policyGeneration: nat, revision: Revision)

  datatype Timestamps = Timestamps(accessed: int, modified: int, changed: int, created: int)

  datatype Attributes = Attributes(mode: nat, owner: Bytes, group: Bytes, times: Timestamps)

  /** Portable reference to one immutable content version. */
  datatype ContentRef = ContentRef(
    file: FileId, generation: nat, logicalSize: nat, manifestKey: Bytes, manifestDigest: Bytes)

  datatype InodeData =
    | RegularData(contentFile: FileId, content: Option<ContentRef>, dataGeneration: nat)
    | DirectoryData(generation: nat, parent: InodeId)
    | SymlinkData(target: Bytes)
    | CharacterData(major: nat, minor: nat)
    | BlockData(major: nat, minor: nat)
    | FifoData
    | SocketData

  datatype Inode = Inode(
    id: InodeId, qidPath: nat, revision: Revision, attributes: Attributes, logicalSize: nat,
    linkCount: nat, inodeGeneration: nat, context: Option<ContextId>, data: InodeData)

  datatype ContentMetadata = ContentMetadata(
    owner: InodeId, file: FileId, context: ContextId, policyFormat: nat, policyBytes: Bytes,
    keyCommitment: Option<Bytes>, wrappedKey: Option<Bytes>, revision: Revision)

  datatype Entry = Entry(
    parent: InodeId, name: Bytes, cookie: nat, child: InodeId, revision: Revision)

  datatype Open = Open(
    id: OpenId, inode: InodeId, client: ClientId, access: nat, append: bool,
    retainedGeneration: nat, revision: Revision)

  datatype OpenPin = OpenPin(inode: InodeId, open: OpenId, revision: Revision)

  datatype Orphan = Orphan(
    inode: InodeId, pinCount: nat, orphanedRevision: Revision, revision: Revision)

  datatype LockKind = Shared | Exclusive

  datatype LockOwner = LockOwner(client: ClientId, open: OpenId)

  /** A byte-range lock; an absent end reaches through end of file. */
  datatype Lock = Lock(
    id: LockId, inode: InodeId, start: nat, end: Option<nat>, kind: LockKind, owner: LockOwner,
    generation: nat, revision: Revision)

  datatype Xattr = Xattr(inode: InodeId, name: Bytes, value: Bytes, revision: Revision)

  datatype XattrStaging = XattrStaging(
    id: StagingId, inode: InodeId, name: Bytes, expectedSize: nat, bytes: Bytes, revision: Revision)

  /** One row of the idempotency ledger. */
  datatype Mutation = Mutation(
    id: MutationId, fingerprint: Bytes, client: ClientId, scope: ScopeId, writer: WriterId,
    token: nat, result: Bytes, committedRevision: Revision, retention: nat, revision: Revision)

  datatype WriterLease = WriterLease(
    scope: ScopeId, holder: WriterId, lease: LeaseId, deadline: nat, token: nat, revision: Revision)

  datatype Record =
    | FilesystemRecord(header: Header)
    | InodeRecord(node: Inode)
    | ContentMetadataRecord(metadata: ContentMetadata)
    | EntryRecord(entry: Entry)
    | OpenRecord(open: Open)
    | OpenPinRecord(pin: OpenPin)
    | OrphanRecord(orphan: Orphan)
    | LockRecord(lock: Lock)
    | XattrRecord(xattr: Xattr)
    | XattrStagingRecord(staging: XattrStaging)
    | MutationRecord(mutation: Mutation)
    | WriterLeaseRecord(lease: WriterLease)

  type Table = map<Key, Record>

  /** The record has the key's family and identity (`validate_key`). */
  predicate Names(r: Record, k: Key)
  {
    match k
    case FilesystemKey => r.FilesystemRecord?
    case InodeKey(i) => r.InodeRecord? && r.node.id == i
    case ContentMetadataKey(f) => r.ContentMetadataRecord? && r.metadata.file == f
    case EntryKey(p, n) => r.EntryRecord? && r.entry.parent == p && r.entry.name == n
    case OpenKey(o) => r.OpenRecord? && r.open.id == o
    case OpenPinKey(i, o) => r.OpenPinRecord? && r.pin.inode == i && r.pin.open == o
    case OrphanKey(i) => r.OrphanRecord? && r.orphan.inode == i
    case LockKey(i, l) => r.LockRecord? && r.lock.inode == i && r.lock.id == l
    case XattrKey(i, n) => r.XattrRecord? && r.xattr.inode == i && r.xattr.name == n
    case XattrStagingKey(s) => r.XattrStagingRecord? && r.staging.id == s
    case MutationKey(m) => r.MutationRecord? && r.mutation.id == m
    case WriterLeaseKey(s) => r.WriterLeaseRecord? && r.lease.scope == s
  }

  function RevisionOf(r: Record): Revision
  {
    match r
    case FilesystemRecord(h) => h.revision
    case InodeRecord(n) => n.revision
    case ContentMetadataRecord(c) => c.revision
    case EntryRecord(e) => e.revision
    case OpenRecord(o) => o.revision
    case OpenPinRecord(p) => p.revision
    case OrphanRecord(o) => o.revision
    case LockRecord(l) => l.revision
    case XattrRecord(x) => x.revision
    case XattrStagingRecord(s) => s.revision
    case MutationRecord(m) => m.revision
    case WriterLeaseRecord(l) => l.revision
  }

  /** Overwrites the caller's record revision with the allocated one. */
  function Stamp(r: Record, revision: Revision): (s: Record)
    ensures RevisionOf(s) == revision
    ensures forall k :: Names(s, k) <==> Names(r, k)
  {
    match r
    case FilesystemRecord(h) => FilesystemRecord(h.(revision := revision))
    case InodeRecord(n) => InodeRecord(n.(revision := revision))
    case ContentMetadataRecord(c) => ContentMetadataRecord(c.(revision := revision))
    case EntryRecord(e) => EntryRecord(e.(revision := revision))
    case OpenRecord(o) => OpenRecord(o.(revision := revision))
    case OpenPinRecord(p) => OpenPinRecord(p.(revision := revision))
    case OrphanRecord(o) => OrphanRecord(o.(revision := revision))
    case LockRecord(l) => LockRecord(l.(revision := revision))
    case XattrRecord(x) => XattrRecord(x.(revision := revision))
    case XattrStagingRecord(s) => XattrStagingRecord(s.(revision := revision))
    case MutationRecord(m) => MutationRecord(m.(revision := revision))
    case WriterLeaseRecord(l) => WriterLeaseRecord(l.(revision := revision))
  }

  /** Stamping changes nothing but the revision: stamping back gives the record back. */
  lemma StampBack(r: Record, revision: Revision)
    ensures Stamp(Stamp(r, revision), RevisionOf(r)) == r
  {
  }

  /** A record sits under one key only. */
  lemma NamesOneKey(r: Record, a: Key, b: Key)
    requires Names(r, a) && Names(r, b)
    ensures a == b
  {
  }

  /** Every row sits under the key it names. */
  ghost predicate WellKeyed(t: Table)
  {
    forall k | k in t :: Names(t[k], k)
  }

  function Lookup(t: Table, k: Key): (r: Option<Record>)
  {
    if k in t then Some(t[k]) else None
  }

  function InodeAt(t: Table, i: InodeId): (r: Option<Inode>)
  {
    if InodeKey(i) in t && t[InodeKey(i)].InodeRecord? then Some(t[InodeKey(i)].node) else None
  }

  function HeaderAt(t: Table): (r: Option<Header>)
  {
    if FilesystemKey in t && t[FilesystemKey].FilesystemRecord?
    then Some(t[FilesystemKey].header) else None
  }

  predicate IsDirectory(t: Table, i: InodeId)
  {
    InodeAt(t, i).Some? && InodeAt(t, i).value.data.DirectoryData?
  }

  function DirectoryGeneration(n: Inode): Option<nat>
  {
    if n.data.DirectoryData? then Some(n.data.generation) else None
  }

  function DirectoryParent(n: Inode): Option<InodeId>
  {
    if n.data.DirectoryData? then Some(n.data.parent) else None
  }

  function ContentFile(n: Inode): Option<FileId>
  {
    if n.data.RegularData? then Some(n.data.contentFile) else None
  }

  function Content(n: Inode): Option<ContentRef>
  {
    if n.data.RegularData? then n.data.content else None
  }

  /** The discriminant of the inode kind. */
  function Kind(d: InodeData): nat
  {
    match d
    case RegularData(_, _, _) => 1
    case DirectoryData(_, _) => 2
    case SymlinkData(_) => 3
    case CharacterData(_, _) => 4
    case BlockData(_, _) => 5
    case FifoData => 6
    case SocketData => 7
  }

  /** Rows naming `i` as child. */
  function EntriesTo(t: Table, i: InodeId): set<Key>
  {
    set k | k in t && k.EntryKey? && t[k].EntryRecord? && t[k].entry.child == i
  }

  /** Rows under directory `p`. */
  function EntriesIn(t: Table, p: InodeId): set<Key>
  {
    set k | k in t && k.EntryKey? && k.parent == p
  }

  function Pins(t: Table, i: InodeId): set<Key>
  {
    set k | k in t && k.OpenPinKey? && k.inode == i
  }

  predicate Overlaps(a: Lock, b: Lock)
  {
    && (b.end.None? || a.start < b.end.value)
    && (a.end.None? || b.start < a.end.value)
  }

  predicate Conflicts(a: Lock, b: Lock)
  {
    && a.inode == b.inode
    && a.owner != b.owner
    && Overlaps(a, b)
    && (a.kind.Exclusive? || b.kind.Exclusive?)
  }

  const U32_MAX: nat := 0xFFFF_FFFF
  const MAX_VALUE: nat := 1048576

  /** Nonempty, bounded and without a NUL byte. */
  predicate PlainText(s: Bytes, bound: nat)
  {
    1 <= |s| <= bound && 0 !in s
  }

  /** A directory component: neither `.` nor `..`, and no slash. */
  predicate ComponentAllowed(name: Bytes)
  {
    PlainText(name, 1024) && 0x2F !in name && name != [0x2E] && name != [0x2E, 0x2E]
  }

  /** Size and payload of each kind of inode. */
  predicate KindShape(n: Inode)
  {
    match n.data
    case RegularData(_, _, _) => RegularShape(n)
    case DirectoryData(generation, _) => n.logicalSize == 0 && 1 <= generation <= U64_MAX
    case SymlinkData(target) => PlainText(target, MAX_VALUE) && n.logicalSize == |target|
    case CharacterData(major, minor) => n.logicalSize == 0 && major <= U32_MAX && minor <= U32_MAX
    case BlockData(major, minor) => n.logicalSize == 0 && major <= U32_MAX && minor <= U32_MAX
    case _ => n.logicalSize == 0
  }

  predicate AttributesAllowed(a: Attributes)
  {
    a.mode <= 4095 && PlainText(a.owner, 65536) && PlainText(a.group, 65536)
  }

  /** The persisted CHECK constraints of the rows a request writes. */
  predicate SchemaAllows(r: Record)
  {
    match r
    case FilesystemRecord(h) =>
      1 <= h.nextQidPath <= U64_MAX && 1 <= h.nextCookie <= U64_MAX
      && 1 <= h.policyGeneration <= U64_MAX
    case InodeRecord(n) =>
      1 <= n.qidPath <= U64_MAX && n.linkCount <= U64_MAX && 1 <= n.inodeGeneration <= U64_MAX
      && n.logicalSize <= U64_MAX && AttributesAllowed(n.attributes)
      && n.data.RegularData? == n.context.Some? && KindShape(n)
    case EntryRecord(e) => 1 <= e.cookie <= U64_MAX && ComponentAllowed(e.name)
    case OpenRecord(o) => 1 <= o.access <= 4 && 1 <= o.retainedGeneration <= U64_MAX
    case OrphanRecord(o) => 1 <= o.pinCount <= U64_MAX && 1 <= o.orphanedRevision <= U64_MAX
    case LockRecord(l) =>
      1 <= l.generation <= U64_MAX && l.start <= U64_MAX && (l.end.Some? ==> l.start < l.end.value <= U64_MAX)
    case ContentMetadataRecord(c) =>
      && 1 <= c.policyFormat <= 65535 && 1 <= |c.policyBytes| <= 512
      && c.keyCommitment.Some? == c.wrappedKey.Some?
      && (c.keyCommitment.Some? ==> |c.keyCommitment.value| == 32 && 1 <= |c.wrappedKey.value| <= 512)
    case XattrRecord(x) => PlainText(x.name, 1024) && |x.value| <= MAX_VALUE
    case XattrStagingRecord(s) => PlainText(s.name, 1024) && |s.bytes| <= s.expectedSize <= MAX_VALUE
    case _ => true
  }

  predicate RegularShape(n: Inode)
    requires n.data.RegularData?
  {
    match n.data.content
    case None => n.data.dataGeneration == 0 && n.logicalSize == 0
    case Some(c) =>
      c.file == n.data.contentFile && c.logicalSize == n.logicalSize
      && c.generation == n.data.dataGeneration && 1 <= n.data.dataGeneration <= U64_MAX
      && 1 <= |c.manifestKey| <= 67108864 && |c.manifestDigest| == 32
  }

  /** Position of a key in the derived order: family first, then its fields. */
  function Rank(k: Key): (r: seq<nat>)
  {
    match k
    case FilesystemKey => [0]
    case InodeKey(i) => [1, i]
    case ContentMetadataKey(f) => [2, f]
    case EntryKey(p, n) => [3, p] + n
    case OpenKey(o) => [4, o]
    case OpenPinKey(i, o) => [5, i, o]
    case OrphanKey(i) => [6, i]
    case LockKey(i, l) => [7, i, l]
    case XattrKey(i, n) => [8, i] + n
    case XattrStagingKey(s) => [9, s]
    case MutationKey(m) => [10, m]
    case WriterLeaseKey(s) => [11, s]
  }

  predicate KeyLess(a: Key, b: Key)
  {
    LexLess(Rank(a), Rank(b))
  }

  lemma RankInjective(a: Key, b: Key)
    requires Rank(a) == Rank(b)
    ensures a == b
  {
    assert Rank(a)[0] == Rank(b)[0];
    if a != FilesystemKey {
      assert Rank(a)[1] == Rank(b)[1];
      if a.EntryKey? || a.XattrKey? {
        assert Rank(a)[2..] == a.name && Rank(b)[2..] == b.name;
      } else if a.OpenPinKey? || a.LockKey? {
        assert Rank(a)[2] == Rank(b)[2];
      }
    }
  }
}
