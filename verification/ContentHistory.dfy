/** Published content forms one linear chain per file, and encryption metadata is
    permanent (crates/w9pt-fs-state/src/commit.rs:343-411, 761-775, 830-884;
    crates/w9pt-fs-state-postgres/src/commit.rs:1097-1107, 1364-1500). */
module ContentHistory {
  import opened Values
  import opened Records
  import opened Requests
  import opened Applying
  import opened Effects
  import opened Loading
  import opened Transitions
  import opened LockTable
  import opened Targeting
  import opened Admission

  // --------------------------------------------------------------- metadata

  /** Only the wrapped key and the revision differ. */
  predicate SameBinding(a: ContentMetadata, b: ContentMetadata)
  {
    a == b.(wrappedKey := a.wrappedKey, revision := a.revision)
  }

  ghost predicate MetadataKept(t: Table, t': Table)
  {
    forall k | k in t && t[k].ContentMetadataRecord?
      :: k in t' && t'[k].ContentMetadataRecord? && SameBinding(t[k].metadata, t'[k].metadata)
  }

  lemma MetadataWrite(t: Table, c: Change, q: Request, revision: Revision, k: Key)
    requires ShapeError(c, q.mutation).None? && Admits(t, c, q) && Touches(c, k)
    requires k in t && t[k].ContentMetadataRecord? && Names(t[k], k)
    ensures !Allocates(c)
    ensures var now := Value(Writes(t, t, c, revision), k);
            now.Some? && now.value.ContentMetadataRecord? && SameBinding(t[k].metadata, now.value.metadata)
  {
  }

  /** No accepted request removes or rebinds content metadata. */
  lemma MetadataIsPermanent(t: Table, q: Request, revision: Revision, t': Table)
    requires Stepped(t, q, revision, t')
    ensures MetadataKept(t, t')
  {
    forall k | k in t && t[k].ContentMetadataRecord?
      ensures k in t' && t'[k].ContentMetadataRecord? && SameBinding(t[k].metadata, t'[k].metadata)
    {
      if c :| c in q.changes && Touches(c, k) {
        MetadataWrite(t, c, q, revision, k);
        assert Lookup(t', k) == Value(Writes(t, t, c, revision), k);
      } else {
        assert Lookup(t', k) == Lookup(t, k);
      }
    }
  }

  // ------------------------------------------------------------- publication

  /** The publication continues this inode's content, under this metadata. */
  predicate Continues(p: Publication, mutation: MutationContext, n: Inode, c: ContentMetadata)
  {
    && n.data.RegularData? && p.prepared.mutation == mutation.id
    && ContentBase(n) == Some(p.prepared.base) && p.prepared.base == p.expectedBase
    && p.prepared.content.file == n.data.contentFile
    && p.prepared.content.logicalSize == p.logicalSize
    && p.prepared.content.generation == p.dataGeneration
    && p.dataGeneration == p.expectedBase.generation + (if p.prepared.changed then 1 else 0)
    && (p.prepared.changed ==> p.dataGeneration <= U64_MAX)
    && p.inodeGeneration == n.inodeGeneration + 1 <= U64_MAX
    && BoundTo(p.prepared.binding, n, c)
  }

  /** Inode, metadata and preparation agree on owner, file, context, policy, key
      commitment and metadata revision. */
  predicate BoundTo(b: Binding, n: Inode, c: ContentMetadata)
  {
    n.context == Some(c.context) && c.owner == n.id
    && b == Binding(c.file, c.context, c.revision, c.policyFormat, c.policyBytes, c.keyCommitment)
  }

  /** Publication validation accepts the continuations. */
  lemma AcceptedIffContinues(p: Publication, mutation: MutationContext, n: Inode, c: ContentMetadata)
    ensures PublicationError(p, mutation, n, c).None? <==> Continues(p, mutation, n, c)
  {
  }

  /** A refused publication names a rule it breaks. */
  lemma PublicationReason(p: Publication, mutation: MutationContext, n: Inode, c: ContentMetadata)
    ensures match PublicationError(p, mutation, n, c)
            case None => true
            case Some(NotRegularFile) => !n.data.RegularData?
            case Some(MutationIdMismatch) => p.prepared.mutation != mutation.id
            case Some(PreparationBaseMismatch) => p.prepared.base != p.expectedBase
            case Some(AuthoritativeBaseMismatch) => ContentBase(n) != Some(p.expectedBase)
            case Some(ContentFileMismatch) => n.data.RegularData? && n.data.contentFile != p.prepared.content.file
            case Some(LogicalSizeMismatch) => p.prepared.content.logicalSize != p.logicalSize
            case Some(DataGenerationMismatch) =>
              || p.prepared.content.generation != p.dataGeneration
              || p.dataGeneration != p.expectedBase.generation + if p.prepared.changed then 1 else 0
            case Some(InodeGenerationMismatch) => p.inodeGeneration != n.inodeGeneration + 1
            case Some(GenerationOverflow) =>
              n.inodeGeneration >= U64_MAX || (p.prepared.changed && p.expectedBase.generation >= U64_MAX)
            case Some(ContentContextMismatch) => !BoundTo(p.prepared.binding, n, c)
            case _ => false
  {
  }

  predicate Publishes(c: Change, i: InodeId)
  {
    c.PublishContent? && c.publication.inode == i && c.publication.prepared.changed
  }

  function BaseGeneration(n: Inode): nat
  {
    if Content(n).Some? then Content(n).value.generation else 0
  }

  /** The effect of a publication prepared from the stored content. */
  predicate Extends(p: Publication, n: Inode, n': Inode)
  {
    && Content(n') == Some(p.prepared.content)
    && ContentBase(n) == Some(p.prepared.base)
    && BaseGeneration(n') == BaseGeneration(n) + if p.prepared.changed then 1 else 0
  }

  /** Every change keeps an inode's content file and content, except a publication,
      which extends the version it was prepared from. */
  lemma ContentWrite(t: Table, c: Change, q: Request, revision: Revision, i: InodeId)
    requires ShapeError(c, q.mutation).None? && Admits(t, c, q) && Touches(c, InodeKey(i))
    requires InodeAt(t, i).Some? && InodeAt(t, i).value.id == i
    requires Value(Writes(t, t, c, revision), InodeKey(i)).Some?
    ensures !Allocates(c)
    ensures var now := Value(Writes(t, t, c, revision), InodeKey(i)).value;
            now.InodeRecord? && KeepsContent(c, InodeAt(t, i).value, now.node)
  {
    hide PublicationError;
    if c.PublishContent? {
      var n := InodeAt(t, i).value;
      var m :| PublicationError(c.publication, q.mutation, n, m).None?;
      AcceptedIffContinues(c.publication, q.mutation, n, m);
    }
  }

  predicate KeepsContent(c: Change, n: Inode, n': Inode)
  {
    && ContentFile(n') == ContentFile(n)
    && n'.context == n.context
    && (if c.PublishContent? then Extends(c.publication, n, n') else Content(n') == Content(n))
  }

  lemma OneWriter(changes: seq<Change>, c: Change, d: Change, k: Key)
    requires DistinctTargets(changes) && c in changes && d in changes
    requires Touches(c, k) && Touches(d, k) && k != FilesystemKey
    ensures c == d
  {
    var x :| 0 <= x < |changes| && changes[x] == c;
    var y :| 0 <= y < |changes| && changes[y] == d;
    assert x == y;
  }

  /** The one change that wrote the row of inode `i`, if any. */
  lemma ContentWriter(t: Table, q: Request, revision: Revision, t': Table, i: InodeId)
      returns (writer: Option<Change>)
    requires Stepped(t, q, revision, t') && DistinctTargets(q.changes)
    requires InodeAt(t, i).Some? && InodeAt(t', i).Some?
    ensures writer.None? ==> InodeAt(t', i) == InodeAt(t, i)
    ensures writer.Some? ==> writer.value in q.changes && Touches(writer.value, InodeKey(i))
    ensures writer.Some? ==> KeepsContent(writer.value, InodeAt(t, i).value, InodeAt(t', i).value)
    ensures forall c | c in q.changes && Touches(c, InodeKey(i)) :: writer == Some(c)
  {
    hide Stepped, Writes, Admits, ShapeError, KeepsContent, DistinctTargets;
    var k := InodeKey(i);
    RowNamed(t, q, revision, t', k);
    if c :| c in q.changes && Touches(c, k) {
      ChangeAt(t, q, revision, t', c, k);
      assert !Allocates(c);
      ContentWrite(t, c, q, revision, i);
      forall d | d in q.changes && Touches(d, k) ensures d == c {
        OneWriter(q.changes, c, d, k);
      }
      writer := Some(c);
    } else {
      UntouchedKept(t, q, revision, t', k);
      writer := None;
    }
  }

  /** `n` becomes `n'` under `changes`: the content generation rises by one exactly
      when a change to it is published, a publication starts from the content
      stored before, and without one the content stays. */
  ghost predicate Versioned(changes: seq<Change>, i: InodeId, n: Inode, n': Inode)
  {
    && ContentFile(n') == ContentFile(n)
    && BaseGeneration(n') == BaseGeneration(n) + (if exists c :: c in changes && Publishes(c, i) then 1 else 0)
    && (forall c | c in changes && PublishesTo(c, i) :: Extends(c.publication, n, n'))
    && ((forall c | c in changes :: !PublishesTo(c, i)) ==> Content(n) == Content(n'))
  }

  predicate PublishesTo(c: Change, i: InodeId)
  {
    c.PublishContent? && c.publication.inode == i
  }

  lemma VersionedByWriter(changes: seq<Change>, i: InodeId, n: Inode, n': Inode, writer: Option<Change>)
    requires writer.None? ==> n' == n
    requires writer.Some? ==> writer.value in changes && KeepsContent(writer.value, n, n')
                              && Touches(writer.value, InodeKey(i))
    requires forall c | c in changes && Touches(c, InodeKey(i)) :: writer == Some(c)
    ensures Versioned(changes, i, n, n')
  {
    forall c | c in changes && PublishesTo(c, i) ensures writer == Some(c) {
      assert Touches(c, InodeKey(i));
    }
    if writer.Some? && writer.value.PublishContent? {
      assert PublishesTo(writer.value, i);
      assert Publishes(writer.value, i) <==> writer.value.publication.prepared.changed;
    }
    forall c | c in changes && Publishes(c, i) ensures writer == Some(c) {
      assert PublishesTo(c, i);
    }
  }

  /** One commit appends at most one version to an inode that stays. */
  lemma ContentExtends(t: Table, q: Request, revision: Revision, t': Table, i: InodeId)
    requires Stepped(t, q, revision, t') && DistinctTargets(q.changes)
    requires InodeAt(t, i).Some? && InodeAt(t', i).Some?
    ensures Versioned(q.changes, i, InodeAt(t, i).value, InodeAt(t', i).value)
  {
    var writer := ContentWriter(t, q, revision, t', i);
    VersionedByWriter(q.changes, i, InodeAt(t, i).value, InodeAt(t', i).value, writer);
  }

  // ------------------------------------------------------- inode and metadata

  ghost predicate MatchedAt(t: Table, n: Inode)
  {
    n.data.RegularData? ==>
      var k := ContentMetadataKey(n.data.contentFile);
      && k in t && t[k].ContentMetadataRecord?
      && t[k].metadata.owner == n.id && n.context == Some(t[k].metadata.context)
  }

  /** Every regular inode has the metadata of its content file, bound to it. */
  ghost predicate Matched(t: Table)
  {
    forall i | InodeAt(t, i).Some? :: MatchedAt(t, InodeAt(t, i).value)
  }

  lemma PairWritten(t: Table, c: Change, d: Change, q: Request, revision: Revision)
    requires PairsWithMetadata(c, d) && Admits(t, d, q) && ShapeError(c, q.mutation).None?
    ensures d.key !in t && Touches(d, d.key) && !Allocates(d)
    ensures d.key == ContentMetadataKey(ContentFile(c.record.node).value)
    ensures var now := Value(Writes(t, t, d, revision), d.key);
            now.Some? && now.value.ContentMetadataRecord? && now.value.metadata.owner == c.record.node.id
            && c.record.node.context == Some(now.value.metadata.context)
  {
  }

  lemma InsertIsMatched(t: Table, q: Request, revision: Revision, t': Table, c: Change)
    requires Stepped(t, q, revision, t') && ContentPaired(q.changes)
    requires c in q.changes && NeedsMetadata(c)
    ensures MatchedAt(t', c.record.node)
    ensures ContentMetadataKey(ContentFile(c.record.node).value) !in t
  {
    var d :| d in q.changes && PairsWithMetadata(c, d);
    PairWritten(t, c, d, q, revision);
    assert Lookup(t', d.key) == Value(Writes(t, t, d, revision), d.key);
  }

  lemma InodeOriginWrite(t: Table, c: Change, q: Request, revision: Revision, i: InodeId)
    requires ShapeError(c, q.mutation).None? && Admits(t, c, q) && Touches(c, InodeKey(i))
    requires InodeKey(i) in t ==> Names(t[InodeKey(i)], InodeKey(i))
    requires Value(Writes(t, t, c, revision), InodeKey(i)).Some?
    ensures !Allocates(c)
    ensures InodeAt(t, i).Some? || (c.Insert? && c.record.InodeRecord?
              && Value(Writes(t, t, c, revision), InodeKey(i)).value == Stamp(c.record, revision))
  {
  }

  predicate InsertsAs(c: Change, i: InodeId, n: Inode)
  {
    c.Insert? && c.key == InodeKey(i) && c.record.InodeRecord?
    && c.record.node == n.(revision := c.record.node.revision)
  }

  /** An inode after the request stood before it with the same content file, or was
      inserted by it. */
  lemma InodeOrigin(t: Table, q: Request, revision: Revision, t': Table, i: InodeId)
    requires Stepped(t, q, revision, t') && DistinctTargets(q.changes) && InodeAt(t', i).Some?
    ensures var n' := InodeAt(t', i).value;
            || (InodeAt(t, i).Some? && ContentFile(InodeAt(t, i).value) == ContentFile(n')
                && InodeAt(t, i).value.context == n'.context)
            || (exists c :: c in q.changes && InsertsAs(c, i, n'))
  {
    var k := InodeKey(i);
    assert k in t ==> Names(t[k], k);
    if c :| c in q.changes && Touches(c, k) {
      assert !Allocates(c) && Lookup(t', k) == Value(Writes(t, t, c, revision), k);
      InodeOriginWrite(t, c, q, revision, i);
      if InodeAt(t, i).Some? {
        ContentWrite(t, c, q, revision, i);
      }
    } else {
      assert Lookup(t', k) == Lookup(t, k);
    }
  }

  /** The metadata rows a request may find changed under a publication are those it
      rewraps itself. */
  lemma FoundMetadata(t: Table, q: Request, revision: Revision, t': Table, done: seq<Change>, cur: Table, k: Key)
    requires Stepped(t, q, revision, t') && ContentPaired(q.changes) && Written(t, done, revision, cur)
    requires (forall c | c in done :: c in q.changes) && k.ContentMetadataKey?
    requires k in cur && cur[k].ContentMetadataRecord? && InodeKey(cur[k].metadata.owner) in t
    ensures k in t && t[k].ContentMetadataRecord? && SameBinding(t[k].metadata, cur[k].metadata)
    ensures cur[k] == t[k] || (Rewraps(q.changes, k) && k in t' && cur[k] == t'[k])
  {
    hide Stepped, Writes, ContentPaired, ShapeError, Admits;
    if c :| c in done && Touches(c, k) {
      ChangeAt(t, q, revision, t', c, k);
      RowNamed(t, q, revision, t', k);
      assert !Allocates(c);
      FoundWrite(t, q, revision, t', c, k);
      if c.RewrapContentMetadata? {
        MetadataWrite(t, c, q, revision, k);
      }
    } else {
      assert !Touched(done, k) && Lookup(cur, k) == Lookup(t, k);
    }
  }

  predicate Rewraps(changes: seq<Change>, k: Key)
  {
    exists c :: c in changes && c.RewrapContentMetadata? && Touches(c, k)
  }

  /** Metadata is written by its insertion, next to the insertion of its owner, or
      by a rewrap. */
  lemma FoundWrite(t: Table, q: Request, revision: Revision, t': Table, c: Change, k: Key)
    requires Stepped(t, q, revision, t') && ContentPaired(q.changes)
    requires c in q.changes && Touches(c, k) && k.ContentMetadataKey?
    requires var now := Value(Writes(t, t, c, revision), k);
             now.Some? && now.value.ContentMetadataRecord? && InodeKey(now.value.metadata.owner) in t
    ensures c.RewrapContentMetadata? && k in t && t[k].ContentMetadataRecord?
  {
    hide Stepped, Writes, ShapeError;
    ChangeAt(t, q, revision, t', c, k);
    MetadataWriters(t, c, q, revision, k);
    forall d | d in q.changes && d.Insert? ensures d.key !in t {
      assert Touches(d, d.key);
      ChangeAt(t, q, revision, t', d, d.key);
    }
  }

  lemma MetadataWriters(t: Table, c: Change, q: Request, revision: Revision, k: Key)
    requires ShapeError(c, q.mutation).None? && Admits(t, c, q) && Touches(c, k) && k.ContentMetadataKey?
    ensures || (c.RewrapContentMetadata? && k in t && t[k].ContentMetadataRecord?)
            || (NeedsInode(c) && Value(Writes(t, t, c, revision), k)
                                 == Some(ContentMetadataRecord(c.record.metadata.(revision := revision))))
  {
  }

  /** What a publication of an accepted request was checked against. */
  lemma CheckedPublication(t: Table, q: Request, revision: Revision, depth: nat, t': Table, p: Publication)
      returns (done: seq<Change>, cur: Table)
    requires WellKeyed(t) && Admitted(t, q, revision, depth, t') && PublishContent(p) in q.changes
    ensures done <= q.changes && Written(t, done, revision, cur)
    ensures var k := ContentMetadataKey(p.prepared.binding.file);
            && InodeAt(t, p.inode).Some? && InodeAt(t, p.inode).value.id == p.inode
            && k in cur && cur[k].ContentMetadataRecord?
            && Continues(p, q.mutation, InodeAt(t, p.inode).value, cur[k].metadata)
  {
    hide TargetedOk, TransitionsOk, LocksOk, Writes, Continues, PublicationError;
    var c := PublishContent(p);
    var loaded := Loaded(t, q);
    var x :| 0 <= x < |q.changes| && q.changes[x] == c;
    done := q.changes[..x];
    cur := FoundBy(t, loaded, q.changes, q, revision, x);
    LoadedCoversTargets(t, q);
    DistinctPrefix(q.changes, x);
    AppliedIsWritten(t, loaded, done, q, revision);
    var k := InodeKey(p.inode);
    assert Touches(c, k) && Lookup(loaded, k) == Lookup(t, k);
    assert PublishRefusal(cur, loaded, p, q).None?;
    assert Names(t[k], k);
    AcceptedIffContinues(p, q.mutation, InodeAt(t, p.inode).value,
                         cur[ContentMetadataKey(p.prepared.binding.file)].metadata);
  }

  /** A committed publication continues the content stored before the request, under
      the metadata of the inode's own content file: as stored, or as the same request
      rewrapped it. That the binding names this file follows from the unique owner
      of metadata; no check compares the two. */
  lemma PublicationContinuesStored(t: Table, q: Request, revision: Revision, depth: nat, t': Table, p: Publication)
    requires WellKeyed(t) && ConstraintsHold(t) && Matched(t)
    requires Admitted(t, q, revision, depth, t') && PublishContent(p) in q.changes
    ensures InodeAt(t, p.inode).Some?
    ensures var n := InodeAt(t, p.inode).value;
            var k := ContentMetadataKey(p.prepared.binding.file);
            && ContentFile(n) == Some(p.prepared.binding.file) == Some(p.prepared.content.file)
            && k in t && t[k].ContentMetadataRecord? && k in t' && t'[k].ContentMetadataRecord?
            && (|| Continues(p, q.mutation, n, t[k].metadata)
                || (Rewraps(q.changes, k) && Continues(p, q.mutation, n, t'[k].metadata)))
  {
    var done, cur := CheckedPublication(t, q, revision, depth, t', p);
    AdmittedSteps(t, q, revision, depth, t');
    AdmittedParts(t, q, revision, depth, t');
    hide Admitted, Stepped, Written, DistinctTargets, ContentPaired, TransitionsOk, LocksOk, TargetedOk, ApplyAll;
    var n := InodeAt(t, p.inode).value;
    var k := ContentMetadataKey(p.prepared.binding.file);
    FoundMetadata(t, q, revision, t', done, cur, k);
    MetadataIsPermanent(t, q, revision, t');
    assert MatchedAt(t, n);
    var own := ContentMetadataKey(n.data.contentFile);
    assert own != k ==> !SameUnique(t[own], t[k]);
  }

  lemma MatchedPreserved(t: Table, q: Request, revision: Revision, depth: nat, t': Table)
    requires WellKeyed(t) && Matched(t) && Admitted(t, q, revision, depth, t')
    ensures Matched(t')
  {
    AdmittedSteps(t, q, revision, depth, t');
    MetadataIsPermanent(t, q, revision, t');
    forall i | InodeAt(t', i).Some? ensures MatchedAt(t', InodeAt(t', i).value) {
      assert Names(t'[InodeKey(i)], InodeKey(i));
      var n' := InodeAt(t', i).value;
      InodeOrigin(t, q, revision, t', i);
      if InodeAt(t, i).Some? && ContentFile(InodeAt(t, i).value) == ContentFile(n')
         && InodeAt(t, i).value.context == n'.context {
        assert Names(t[InodeKey(i)], InodeKey(i));
        assert MatchedAt(t, InodeAt(t, i).value);
      } else {
        var c :| c in q.changes && InsertsAs(c, i, n');
        if NeedsMetadata(c) {
          InsertIsMatched(t, q, revision, t', c);
        }
      }
    }
  }

  /** Once a content file has metadata, only the inode that already holds it can
      hold it later: a retired content file never comes back. */
  lemma FileNeverReturns(t: Table, q: Request, revision: Revision, depth: nat, t': Table, i: InodeId, f: FileId)
    requires WellKeyed(t) && Admitted(t, q, revision, depth, t')
    requires ContentMetadataKey(f) in t
    requires InodeAt(t', i).Some? && ContentFile(InodeAt(t', i).value) == Some(f)
    ensures InodeAt(t, i).Some? && ContentFile(InodeAt(t, i).value) == Some(f)
  {
    AdmittedSteps(t, q, revision, depth, t');
    var n' := InodeAt(t', i).value;
    InodeOrigin(t, q, revision, t', i);
    if c :| c in q.changes && InsertsAs(c, i, n') {
      InsertIsMatched(t, q, revision, t', c);
    }
  }
}
