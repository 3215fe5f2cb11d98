/** The rows of the database: the codec of inode rows, and the CHECK constraints, with
    nullable columns under the three-valued logic of SQL
    (crates/w9pt-fs-state-postgres/src/row_codec.rs:386-748,
    crates/w9pt-fs-state-postgres/src/schema/m20260904_182105_create_w9pt_fs_state.rs:532-962). */
module Rows {
  import opened Values
  import opened Records

  datatype InodeColumns = InodeColumns(
    id: InodeId, qidPath: nat, revision: Revision, attributes: Attributes, logicalSize: nat,
    linkCount: nat, inodeGeneration: nat, kind: nat, contentFile: Option<FileId>,
    context: Option<ContextId>, dataGeneration: Option<nat>, contentGeneration: Option<nat>,
    contentSize: Option<nat>, manifestKey: Option<Bytes>, manifestDigest: Option<Bytes>,
    directoryGeneration: Option<nat>, directoryParent: Option<InodeId>,
    symlinkTarget: Option<Bytes>, major: Option<nat>, minor: Option<nat>)

  // ----------------------------------------------------------------- the codec

  /** `encode_inode`. */
  function Encode(n: Inode): InodeColumns
  {
    var row := InodeColumns(n.id, n.qidPath, n.revision, n.attributes, n.logicalSize, n.linkCount, n.inodeGeneration,
                            0, None, n.context, None, None, None, None, None, None, None, None, None, None);
    match n.data
    case RegularData(file, None, g) => row.(kind := 1, contentFile := Some(file), dataGeneration := Some(g))
    case RegularData(file, Some(c), g) =>
      row.(kind := 1, contentFile := Some(file), dataGeneration := Some(g), contentGeneration := Some(c.generation),
           contentSize := Some(c.logicalSize), manifestKey := Some(c.manifestKey),
           manifestDigest := Some(c.manifestDigest))
    case DirectoryData(g, p) => row.(kind := 2, directoryGeneration := Some(g), directoryParent := Some(p))
    case SymlinkData(target) => row.(kind := 3, symlinkTarget := Some(target))
    case CharacterData(major, minor) => row.(kind := 4, major := Some(major), minor := Some(minor))
    case BlockData(major, minor) => row.(kind := 5, major := Some(major), minor := Some(minor))
    case FifoData => row.(kind := 6)
    case SocketData => row.(kind := 7)
  }

  predicate NoContent(r: InodeColumns)
  {
    r.contentGeneration.None? && r.contentSize.None? && r.manifestKey.None? && r.manifestDigest.None?
  }

  predicate NoFile(r: InodeColumns)
  {
    r.contentFile.None? && r.dataGeneration.None? && NoContent(r)
  }

  predicate NoDirectory(r: InodeColumns)
  {
    r.directoryGeneration.None? && r.directoryParent.None?
  }

  predicate NoDevice(r: InodeColumns)
  {
    r.major.None? && r.minor.None?
  }

  /** `decode_inode_data`: the payload of the kind, if the columns have its shape. */
  function DecodeData(r: InodeColumns): Option<InodeData>
  {
    if r.kind == 1 && NoDirectory(r) && r.symlinkTarget.None? && NoDevice(r)
       && r.contentFile.Some? && r.dataGeneration.Some? then
      if NoContent(r) then Some(RegularData(r.contentFile.value, None, r.dataGeneration.value))
      else if r.contentGeneration.Some? && r.contentSize.Some? && r.manifestKey.Some? && r.manifestDigest.Some? then
        var c := ContentRef(r.contentFile.value, r.contentGeneration.value, r.contentSize.value,
                            r.manifestKey.value, r.manifestDigest.value);
        Some(RegularData(r.contentFile.value, Some(c), r.dataGeneration.value))
      else None
    else if r.kind == 2 && NoFile(r) && r.symlinkTarget.None? && NoDevice(r)
            && r.directoryGeneration.Some? && r.directoryParent.Some?
      then Some(DirectoryData(r.directoryGeneration.value, r.directoryParent.value))
    else if r.kind == 3 && NoFile(r) && NoDirectory(r) && NoDevice(r) && r.symlinkTarget.Some?
      then Some(SymlinkData(r.symlinkTarget.value))
    else if 4 <= r.kind <= 5 && NoFile(r) && NoDirectory(r) && r.symlinkTarget.None? && r.major.Some? && r.minor.Some?
      then Some(if r.kind == 4 then CharacterData(r.major.value, r.minor.value)
                else BlockData(r.major.value, r.minor.value))
    else if 6 <= r.kind <= 7 && NoFile(r) && NoDirectory(r) && r.symlinkTarget.None? && NoDevice(r)
      then Some(if r.kind == 6 then FifoData else SocketData)
    else None
  }

  /** `decode_inode`, with the checks of the record constructors. */
  function Decode(r: InodeColumns): Option<Inode>
  {
    var data := DecodeData(r);
    if data.None? then None
    else
      var n := Inode(r.id, r.qidPath, r.revision, r.attributes, r.logicalSize, r.linkCount, r.inodeGeneration,
                     r.context, data.value);
      if SchemaAllows(InodeRecord(n)) then Some(n) else None
  }

  /** A row decodes to a record exactly when it is the encoding of that valid record. */
  lemma DecodeIffEncoded(r: InodeColumns, n: Inode)
    ensures Decode(r) == Some(n) <==> SchemaAllows(InodeRecord(n)) && Encode(n) == r
  {
  }

  /** The kind column is the discriminant the reads report. */
  lemma KindIsColumn(n: Inode)
    ensures Encode(n).kind == Kind(n.data)
  {
  }

  // ---------------------------------------------------------- the constraints

  /** Truth values of SQL; a CHECK is violated only by `No`. */
  datatype Truth = Yes | No | Unknown

  function Is(b: bool): Truth
  {
    if b then Yes else No
  }

  function And(a: Truth, b: Truth): Truth
  {
    if a.No? || b.No? then No else if a.Unknown? || b.Unknown? then Unknown else Yes
  }

  function Either(a: Truth, b: Truth): Truth
  {
    if a.Yes? || b.Yes? then Yes else if a.Unknown? || b.Unknown? then Unknown else No
  }

  function Equal(a: Option<nat>, b: Option<nat>): Truth
  {
    if a.None? || b.None? then Unknown else Is(a.value == b.value)
  }

  function Between(a: Option<nat>, low: nat, high: nat): Truth
  {
    if a.None? then Unknown else Is(low <= a.value <= high)
  }

  function Length(s: Option<Bytes>): Option<nat>
  {
    if s.None? then None else Some(|s.value|)
  }

  /** The constraints on one column, none of which a null violates. */
  predicate ColumnChecks(r: InodeColumns)
  {
    && 1 <= r.qidPath <= U64_MAX && r.attributes.mode <= 4095
    && 1 <= |r.attributes.owner| <= 65536 && 0 !in r.attributes.owner
    && 1 <= |r.attributes.group| <= 65536 && 0 !in r.attributes.group
    && r.logicalSize <= U64_MAX && r.linkCount <= U64_MAX && 1 <= r.inodeGeneration <= U64_MAX
    && 1 <= r.kind <= 7
    && !Between(r.dataGeneration, 0, U64_MAX).No? && !Between(r.contentGeneration, 1, U64_MAX).No?
    && !Between(r.contentSize, 0, U64_MAX).No? && !Between(Length(r.manifestKey), 1, 67108864).No?
    && !Equal(Length(r.manifestDigest), Some(32)).No? && !Between(r.directoryGeneration, 1, U64_MAX).No?
    && !Between(Length(r.symlinkTarget), 1, 1048576).No? && (r.symlinkTarget.Some? ==> 0 !in r.symlinkTarget.value)
    && !Between(r.major, 0, U32_MAX).No? && !Between(r.minor, 0, U32_MAX).No?
  }

  function NonNull<T>(o: Option<T>): nat
  {
    if o.Some? then 1 else 0
  }

  predicate AllOrNone(r: InodeColumns)
  {
    var count := NonNull(r.contentGeneration) + NonNull(r.contentSize) + NonNull(r.manifestKey)
                 + NonNull(r.manifestDigest);
    count == 0 || count == 4
  }

  predicate ParentShape(r: InodeColumns)
  {
    (r.kind == 2 && r.directoryParent.Some?) || (r.kind != 2 && r.directoryParent.None?)
  }

  /** `regular_content_consistency`. */
  function ContentConsistency(r: InodeColumns): Truth
  {
    Either(Is(r.kind != 1),
      And(And(Is(r.contentFile.Some?), Is(r.dataGeneration.Some?)),
        Either(
          And(And(Equal(r.dataGeneration, Some(0)), Is(r.logicalSize == 0)), Is(r.contentGeneration.None?)),
          And(And(Between(r.dataGeneration, 1, U64_MAX), Equal(r.contentGeneration, r.dataGeneration)),
              Equal(r.contentSize, Some(r.logicalSize))))))
  }

  /** The null columns every kind but a regular file has in `kind_specific_shape`. */
  predicate NoFileColumns(r: InodeColumns)
  {
    r.contentFile.None? && r.context.None? && r.dataGeneration.None? && r.contentGeneration.None?
  }

  /** `kind_specific_shape`. */
  function KindSpecific(r: InodeColumns): Truth
  {
    Either(
      Is(r.kind == 1 && r.contentFile.Some? && r.context.Some? && r.dataGeneration.Some?
         && r.directoryGeneration.None? && r.symlinkTarget.None? && NoDevice(r)),
    Either(
      Is(r.kind == 2 && r.logicalSize == 0 && NoFileColumns(r) && r.directoryGeneration.Some?
         && r.symlinkTarget.None? && NoDevice(r)),
    Either(
      And(And(Is(r.kind == 3), Equal(Some(r.logicalSize), Length(r.symlinkTarget))),
          Is(NoFileColumns(r) && r.directoryGeneration.None? && r.symlinkTarget.Some? && NoDevice(r))),
    Either(
      Is(4 <= r.kind <= 5 && r.logicalSize == 0 && NoFileColumns(r) && r.directoryGeneration.None?
         && r.symlinkTarget.None? && r.major.Some? && r.minor.Some?),
      Is(6 <= r.kind <= 7 && r.logicalSize == 0 && NoFileColumns(r) && r.directoryGeneration.None?
         && r.symlinkTarget.None? && NoDevice(r))))))
  }

  /** No constraint of the table is violated. */
  predicate Checked(r: InodeColumns)
  {
    && ColumnChecks(r) && AllOrNone(r) && ParentShape(r)
    && !ContentConsistency(r).No? && !KindSpecific(r).No?
  }

  /** A regular file with a data generation but no content: the comparisons with the null
      content columns are unknown, and that does not violate the constraint. */
  predicate HalfPublished(r: InodeColumns)
  {
    r.kind == 1 && NoContent(r) && r.dataGeneration.Some? && r.dataGeneration.value > 0
  }

  lemma DecodedIsChecked(n: Inode)
    requires SchemaAllows(InodeRecord(n))
    ensures Checked(Encode(n)) && !HalfPublished(Encode(n))
  {
  }

  /** The constraints let through exactly the rows that decode to a record, and besides
      them the half-published regular files, which no record encodes to. */
  lemma CheckedIffDecodes(r: InodeColumns)
    ensures Checked(r) && !HalfPublished(r) <==> Decode(r).Some?
  {
    if Decode(r).Some? {
      DecodeIffEncoded(r, Decode(r).value);
      DecodedIsChecked(Decode(r).value);
    }
  }

  /** Such a row passes every constraint, and reading it back fails. */
  lemma HalfPublishedPasses(r: InodeColumns)
    requires Checked(r) && r.kind == 1 && NoContent(r)
    ensures var half := r.(dataGeneration := Some(1));
            Checked(half) && HalfPublished(half) && Decode(half).None?
  {
    CheckedIffDecodes(r.(dataGeneration := Some(1)));
  }

  // ----------------------------------------------------------- other families

  /** BETWEEN 1 AND 18446744073709551615. */
  predicate Positive64(n: nat)
  {
    1 <= n <= 18446744073709551615
  }

  predicate Plain(s: Bytes, bound: nat)
  {
    1 <= |s| <= bound && forall b | b in s :: b != 0
  }

  /** The constraints on the rows of the other families a request writes. */
  lemma OtherRowsChecked(r: Record)
    ensures SchemaAllows(r) <==>
      match r
      case FilesystemRecord(h) =>
        Positive64(h.nextQidPath) && Positive64(h.nextCookie) && Positive64(h.policyGeneration)
      case InodeRecord(n) => Decode(Encode(n)) == Some(n)
      case ContentMetadataRecord(c) =>
        && 1 <= c.policyFormat < 65536 && 1 <= |c.policyBytes| <= 512
        && !Equal(Length(c.keyCommitment), Some(32)).No? && !Between(Length(c.wrappedKey), 1, 512).No?
        && NonNull(c.keyCommitment) + NonNull(c.wrappedKey) != 1
      case EntryRecord(e) =>
        && Positive64(e.cookie) && Plain(e.name, 1024) && (forall b | b in e.name :: b != 47)
        && e.name != [46] && e.name != [46, 46]
      case OpenRecord(o) => 1 <= o.access <= 4 && Positive64(o.retainedGeneration)
      case OrphanRecord(o) => Positive64(o.pinCount) && Positive64(o.orphanedRevision)
      case LockRecord(l) =>
        && Positive64(l.generation) && l.start <= 18446744073709551615
        && (match l.end case None => true case Some(end) => Positive64(end) && end > l.start)
      case XattrRecord(x) => Plain(x.name, 1024) && |x.value| <= 1048576
      case XattrStagingRecord(s) => Plain(s.name, 1024) && s.expectedSize <= 1048576 && |s.bytes| <= s.expectedSize
      case _ => true
  {
    if r.InodeRecord? {
      DecodeIffEncoded(Encode(r.node), r.node);
    }
  }
}
