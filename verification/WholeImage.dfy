/** The whole-image validator that the in-memory store runs after every commit
    (crates/w9pt-fs-state/src/records.rs:1678-2054), and the theorem that the targeted
    checks of the database store refine it. */
module WholeImage {
  import opened Values
  import opened Records
  import opened Requests
  import opened Applying
  import opened Effects
  import opened Loading
  import opened Transitions
  import opened LockTable
  import opened Targeting
  import opened Admission
  import opened Namespace
  import opened Accounting
  import opened Allocation
  import opened ContentHistory

  // ------------------------------------------------------------ the validator

  predicate InodeRowOk(t: Table, n: Inode, depth: nat)
  {
    && HeaderAt(t).Some? && n.qidPath < HeaderAt(t).value.nextQidPath
    && (n.data.DirectoryData? && n.linkCount != 0 ==>
          IsDirectory(t, n.data.parent) && Ancestry(t, n.id, HeaderAt(t).value.root, depth))
    && (n.data.RegularData? ==>
          var k := ContentMetadataKey(n.data.contentFile);
          k in t && t[k].ContentMetadataRecord? && t[k].metadata.owner == n.id
          && n.context == Some(t[k].metadata.context))
  }

  /** Metadata whose owner inode stands is bound to it. */
  predicate OwnerRowOk(t: Table, m: ContentMetadata)
  {
    InodeAt(t, m.owner).Some? ==>
      var n := InodeAt(t, m.owner).value;
      n.data.RegularData? && n.data.contentFile == m.file && n.context == Some(m.context)
  }

  predicate RowOk(t: Table, r: Record, depth: nat)
  {
    match r
    case FilesystemRecord(h) => IsDirectory(t, h.root) && InodeAt(t, h.root).value.data.parent == h.root
    case InodeRecord(n) => InodeRowOk(t, n, depth)
    case ContentMetadataRecord(m) => OwnerRowOk(t, m)
    case EntryRecord(e) => EntryRelationsOk(t, e)
    case OpenRecord(o) => InodeAt(t, o.inode).Some?
    case OpenPinRecord(p) => InodeAt(t, p.inode).Some? && PinOwnerOk(t, p)
    case OrphanRecord(o) =>
      InodeAt(t, o.inode).Some? && InodeAt(t, o.inode).value.linkCount == 0 && |Pins(t, o.inode)| == o.pinCount
    case LockRecord(l) => InodeAt(t, l.inode).Some? && LockOwnerOk(t, l)
    case XattrRecord(x) => InodeAt(t, x.inode).Some?
    case XattrStagingRecord(s) => InodeAt(t, s.inode).Some?
    case _ => true
  }

  predicate DirectoryRowOk(t: Table, n: Inode)
    requires n.data.DirectoryData?
  {
    HeaderAt(t).Some? &&
    if n.id == HeaderAt(t).value.root then EntriesTo(t, n.id) == {}
    else if n.linkCount == 0 then EntriesTo(t, n.id) == {} && EntriesIn(t, n.id) == {}
    else |EntriesTo(t, n.id)| == 1 && EntriesTo(t, n.id) <= EntriesIn(t, n.data.parent)
  }

  predicate LinkRowOk(t: Table, n: Inode)
  {
    && (if !n.data.DirectoryData? then |EntriesTo(t, n.id)| == n.linkCount else DirectoryRowOk(t, n))
    && (n.linkCount == 0 ==> Pins(t, n.id) != {} && OrphanAt(t, n.id).Some?)
  }

  ghost predicate Unique(t: Table)
  {
    forall j, k | j in t && k in t && j != k :: !SameUnique(t[j], t[k])
  }

  ghost predicate ImageOk(t: Table, depth: nat)
  {
    && WellKeyed(t)
    && (forall k | k in t :: RowOk(t, t[k], depth))
    && Unique(t) && ConflictFree(t)
    && (forall i | InodeAt(t, i).Some? :: LinkRowOk(t, InodeAt(t, i).value))
  }

  // --------------------------------------------------------------- its loops

  /** What a row takes for itself in the sets of the first loop. */
  datatype Claim =
    | CookieClaim(parent: InodeId, cookie: nat)
    | QidClaim(qid: nat)
    | ContextClaim(context: ContextId)
    | OwnerClaim(owner: InodeId)

  function Claims(r: Record): set<Claim>
  {
    match r
    case EntryRecord(e) => {CookieClaim(e.parent, e.cookie)}
    case InodeRecord(n) => {QidClaim(n.qidPath)}
    case ContentMetadataRecord(m) => {ContextClaim(m.context), OwnerClaim(m.owner)}
    case _ => {}
  }

  lemma ClaimsMeet(a: Record, b: Record)
    ensures SameUnique(a, b) <==> Claims(a) * Claims(b) != {}
  {
    if SameUnique(a, b) {
      match a
      case EntryRecord(e) => assert CookieClaim(e.parent, e.cookie) in Claims(a) * Claims(b);
      case InodeRecord(n) => assert QidClaim(n.qidPath) in Claims(a) * Claims(b);
      case ContentMetadataRecord(m) =>
        assert ContextClaim(m.context) in Claims(a) * Claims(b) || OwnerClaim(m.owner) in Claims(a) * Claims(b);
    }
  }

  ghost predicate RowsDone(t: Table, done: set<Key>, claimed: set<Claim>, locks: set<Key>, depth: nat)
  {
    && done <= t.Keys
    && (forall k | k in done :: Names(t[k], k) && RowOk(t, t[k], depth) && Claims(t[k]) <= claimed)
    && (forall x | x in claimed :: exists k :: k in done && x in Claims(t[k]))
    && (forall j, k | j in done && k in done && j != k :: !SameUnique(t[j], t[k]))
    && (forall k :: k in locks <==> k in done && t[k].LockRecord?)
    && (forall j, k | j in locks && k in locks :: !Conflicts(t[j].lock, t[k].lock))
  }

  predicate NewRowOk(t: Table, claimed: set<Claim>, locks: set<Key>, k: Key, depth: nat)
    requires k in t
  {
    && Names(t[k], k) && RowOk(t, t[k], depth) && Claims(t[k]) * claimed == {}
    && (t[k].LockRecord? ==>
          forall j | j in locks && j in t && t[j].LockRecord? :: !Conflicts(t[k].lock, t[j].lock))
  }

  lemma RowsNone(t: Table, depth: nat)
    ensures RowsDone(t, {}, {}, {}, depth)
  {
  }

  lemma RowsAllDone(t: Table, claimed: set<Claim>, locks: set<Key>, depth: nat)
    requires RowsDone(t, t.Keys, claimed, locks, depth)
    ensures WellKeyed(t) && (forall k | k in t :: RowOk(t, t[k], depth)) && Unique(t) && ConflictFree(t)
  {
    hide RowOk, Claims;
  }

  lemma NextRowDone(t: Table, done: set<Key>, claimed: set<Claim>, locks: set<Key>, k: Key, depth: nat)
    requires RowsDone(t, done, claimed, locks, depth) && k in t && k !in done
    requires NewRowOk(t, claimed, locks, k, depth)
    ensures RowsDone(t, done + {k}, claimed + Claims(t[k]), if t[k].LockRecord? then locks + {k} else locks, depth)
  {
    hide RowOk, Conflicts;
    forall j | j in done ensures !SameUnique(t[j], t[k]) && !SameUnique(t[k], t[j]) {
      ClaimsMeet(t[j], t[k]);
      ClaimsMeet(t[k], t[j]);
    }
    if t[k].LockRecord? {
      forall j | j in locks ensures !Conflicts(t[j].lock, t[k].lock) {
        ConflictsSymmetric(t[j].lock, t[k].lock);
      }
      NoSelfConflict(t[k].lock);
    }
  }

  lemma ConflictsSymmetric(a: Lock, b: Lock)
    ensures Conflicts(a, b) == Conflicts(b, a)
  {
  }

  lemma NoSelfConflict(a: Lock)
    ensures !Conflicts(a, a)
  {
  }

  lemma BadRowBreaksImage(t: Table, done: set<Key>, claimed: set<Claim>, locks: set<Key>, k: Key, depth: nat)
    requires RowsDone(t, done, claimed, locks, depth) && k in t && k !in done
    requires !NewRowOk(t, claimed, locks, k, depth)
    ensures !ImageOk(t, depth)
  {
    hide RowOk, LinkRowOk;
    if Claims(t[k]) * claimed != {} {
      var x :| x in Claims(t[k]) * claimed;
      var j :| j in done && x in Claims(t[j]);
      ClaimsMeet(t[j], t[k]);
      assert x in Claims(t[j]) * Claims(t[k]);
    }
  }

  method CheckRows(t: Table, depth: nat) returns (ok: bool)
    ensures ok ==> WellKeyed(t) && (forall k | k in t :: RowOk(t, t[k], depth)) && Unique(t) && ConflictFree(t)
    ensures !ok ==> !ImageOk(t, depth)
  {
    hide RowOk, ImageOk, RowsDone, NewRowOk, Unique, ConflictFree, WellKeyed;
    var rest: set<Key>, claimed: set<Claim>, locks: set<Key> := t.Keys, {}, {};
    ghost var done: set<Key> := {};
    RowsNone(t, depth);
    while rest != {}
      invariant rest <= t.Keys && done == t.Keys - rest
      invariant RowsDone(t, done, claimed, locks, depth)
      decreases |rest|
    {
      var k :| k in rest;
      if !NewRowOk(t, claimed, locks, k, depth) {
        BadRowBreaksImage(t, done, claimed, locks, k, depth);
        return false;
      }
      NextRowDone(t, done, claimed, locks, k, depth);
      claimed := claimed + Claims(t[k]);
      locks := if t[k].LockRecord? then locks + {k} else locks;
      done := done + {k};
      rest := rest - {k};
    }
    assert done == t.Keys;
    RowsAllDone(t, claimed, locks, depth);
    return true;
  }

  method CheckLinks(t: Table) returns (ok: bool)
    ensures ok <==> forall i | InodeAt(t, i).Some? :: LinkRowOk(t, InodeAt(t, i).value)
  {
    hide LinkRowOk;
    var rest := t.Keys;
    while rest != {}
      invariant rest <= t.Keys
      invariant forall i | InodeAt(t, i).Some? && InodeKey(i) !in rest :: LinkRowOk(t, InodeAt(t, i).value)
      decreases |rest|
    {
      var k :| k in rest;
      if k.InodeKey? && t[k].InodeRecord? && !LinkRowOk(t, t[k].node) {
        assert InodeAt(t, k.inode) == Some(t[k].node);
        return false;
      }
      rest := rest - {k};
    }
    return true;
  }

  /** `validate_record_set_with_limits`. */
  method ValidateImage(t: Table, depth: nat) returns (ok: bool)
    ensures ok <==> ImageOk(t, depth)
  {
    hide RowOk, LinkRowOk;
    ok := CheckRows(t, depth);
    if ok {
      ok := CheckLinks(t);
    }
  }

  // --------------------------------------------------------- what it means

  /** Content metadata whose owner inode stands belongs to it: a regular file with this
      content file and context. */
  ghost predicate OwnersBound(t: Table)
  {
    forall k | k in t && t[k].ContentMetadataRecord? ::
      match InodeAt(t, t[k].metadata.owner)
      case None => true
      case Some(n) =>
        n.data.RegularData? && n.data.contentFile == t[k].metadata.file && n.context == Some(t[k].metadata.context)
  }

  /** Every live directory reaches the root within the depth. */
  ghost predicate AncestryBounded(t: Table, depth: nat)
  {
    HeaderAt(t).Some? && forall i | IsDirectory(t, i) && InodeAt(t, i).value.linkCount != 0
      :: Ancestry(t, i, HeaderAt(t).value.root, depth)
  }

  ghost predicate Healthy(t: Table)
  {
    && Tree(t) && Accounted(t) && ConflictFree(t) && Unique(t) && Matched(t) && OwnersBound(t)
    && CookiesBelow(t, HeaderAt(t).value.nextCookie) && QidsBelow(t, HeaderAt(t).value.nextQidPath)
  }

  lemma InodeRow(t: Table, i: InodeId)
    requires WellKeyed(t) && InodeAt(t, i).Some?
    ensures InodeKey(i) in t && t[InodeKey(i)] == InodeRecord(InodeAt(t, i).value) && InodeAt(t, i).value.id == i
  {
    assert Names(t[InodeKey(i)], InodeKey(i));
  }

  lemma ImageIsTree(t: Table, depth: nat)
    requires HeaderAt(t).Some? && ImageOk(t, depth)
    ensures Tree(t) && AncestryBounded(t, depth)
  {
    var root := HeaderAt(t).value.root;
    assert RowOk(t, t[FilesystemKey], depth);
    InodeRow(t, root);
    forall i | InodeAt(t, i).Some?
      ensures RowOk(t, InodeRecord(InodeAt(t, i).value), depth) && InodeAt(t, i).value.id == i
    {
      InodeRow(t, i);
    }
    forall i | InodeAt(t, i).Some? && i != root ensures NodePlaced(t, root, InodeAt(t, i).value) {
      assert LinkRowOk(t, InodeAt(t, i).value);
    }
    forall k ensures EntryPlaced(t, k) {
      if k in t && k.EntryKey? {
        assert Names(t[k], k) && RowOk(t, t[k], depth);
      }
    }
  }

  lemma ImageOwners(t: Table, depth: nat)
    requires ImageOk(t, depth)
    ensures OwnersPresent(t) && NoDangling(t)
  {
    hide LinkRowOk, InodeRowOk, OwnerRowOk, Unique, ConflictFree;
    forall k | k in t ensures RowOk(t, t[k], depth) {
    }
    hide ImageOk;
  }

  lemma ImageIsAccounted(t: Table, depth: nat)
    requires ImageOk(t, depth)
    ensures Accounted(t)
  {
    forall i | InodeAt(t, i).Some? ensures InodeAccounted(t, InodeAt(t, i).value) {
      InodeRow(t, i);
      assert LinkRowOk(t, InodeAt(t, i).value);
      if OrphanAt(t, i).Some? {
        assert Names(t[OrphanKey(i)], OrphanKey(i)) && RowOk(t, t[OrphanKey(i)], depth);
      }
    }
    ImageOwners(t, depth);
  }

  lemma ImageIsHealthy(t: Table, depth: nat)
    requires HeaderAt(t).Some? && ImageOk(t, depth)
    ensures Healthy(t) && AncestryBounded(t, depth)
  {
    ImageIsTree(t, depth);
    ImageIsAccounted(t, depth);
    hide Tree, Accounted, LinkRowOk, AncestryBounded;
    forall k | k in t ensures RowOk(t, t[k], depth) {
    }
    forall i | InodeAt(t, i).Some? ensures MatchedAt(t, InodeAt(t, i).value) {
      InodeRow(t, i);
    }
  }

  lemma HealthyRow(t: Table, k: Key, depth: nat)
    requires WellKeyed(t) && Healthy(t) && AncestryBounded(t, depth) && k in t
    ensures RowOk(t, t[k], depth)
  {
    assert Names(t[k], k);
    match t[k]
    case FilesystemRecord(_) =>
    case InodeRecord(n) =>
      var root := HeaderAt(t).value.root;
      assert InodeAt(t, n.id) == Some(n) && MatchedAt(t, n);
      if n.id != root {
        assert NodePlaced(t, root, n);
      }
    case ContentMetadataRecord(_) =>
    case EntryRecord(e) => assert EntryPlaced(t, k);
    case OpenRecord(o) => assert DependsOn(t, k, o.inode);
    case OpenPinRecord(p) => assert DependsOn(t, k, p.inode);
    case OrphanRecord(o) =>
      assert DependsOn(t, k, o.inode);
      InodeRow(t, o.inode);
      assert InodeAccounted(t, InodeAt(t, o.inode).value);
    case LockRecord(l) => assert DependsOn(t, k, l.inode);
    case XattrRecord(x) => assert DependsOn(t, k, x.inode);
    case XattrStagingRecord(s) => assert DependsOn(t, k, s.inode);
    case MutationRecord(_) =>
    case WriterLeaseRecord(_) =>
  }

  lemma HealthyLinks(t: Table, i: InodeId)
    requires WellKeyed(t) && Healthy(t) && InodeAt(t, i).Some?
    ensures LinkRowOk(t, InodeAt(t, i).value)
  {
    InodeRow(t, i);
    assert InodeAccounted(t, InodeAt(t, i).value);
    if i != HeaderAt(t).value.root {
      assert NodePlaced(t, HeaderAt(t).value.root, InodeAt(t, i).value);
    } else {
      assert RootPlaced(t, i);
    }
  }

  /** Nothing but retained metadata, ledger rows and leases: no filesystem stands. */
  ghost predicate Vacant(t: Table)
  {
    forall k | k in t :: t[k].ContentMetadataRecord? || t[k].MutationRecord? || t[k].WriterLeaseRecord?
  }

  lemma VacantImage(t: Table, depth: nat)
    requires HeaderAt(t).None?
    ensures ImageOk(t, depth) <==> WellKeyed(t) && Vacant(t) && Unique(t)
  {
    hide LinkRowOk, Unique;
    if ImageOk(t, depth) {
      forall k | k in t ensures t[k].ContentMetadataRecord? || t[k].MutationRecord? || t[k].WriterLeaseRecord? {
        HeaderlessRow(t, k, depth);
      }
    }
    if WellKeyed(t) && Vacant(t) && Unique(t) {
      assert forall i :: InodeAt(t, i).None?;
      assert ConflictFree(t);
    }
  }

  /** Without a header no row that needs an inode is accepted. */
  lemma HeaderlessRow(t: Table, k: Key, depth: nat)
    requires HeaderAt(t).None? && WellKeyed(t) && (forall j | j in t :: RowOk(t, t[j], depth)) && k in t
    ensures t[k].ContentMetadataRecord? || t[k].MutationRecord? || t[k].WriterLeaseRecord?
  {
    assert RowOk(t, t[k], depth) && Names(t[k], k);
    forall i ensures InodeAt(t, i).None? {
      assert InodeKey(i) in t ==> RowOk(t, t[InodeKey(i)], depth);
    }
  }

  /** The whole-image validator accepts exactly the healthy images within its depth,
      and the vacant ones. */
  lemma ImageIffHealthy(t: Table, depth: nat)
    ensures ImageOk(t, depth) <==>
            && WellKeyed(t)
            && if HeaderAt(t).Some? then Healthy(t) && AncestryBounded(t, depth) else Vacant(t) && Unique(t)
  {
    hide RowOk, LinkRowOk, Tree, Accounted, AncestryBounded, Matched, OwnersBound, CookiesBelow, QidsBelow;
    if HeaderAt(t).None? {
      VacantImage(t, depth);
    } else if ImageOk(t, depth) {
      ImageIsHealthy(t, depth);
    } else if WellKeyed(t) && Healthy(t) && AncestryBounded(t, depth) {
      forall k | k in t ensures RowOk(t, t[k], depth) {
        HealthyRow(t, k, depth);
      }
      forall i | InodeAt(t, i).Some? ensures LinkRowOk(t, InodeAt(t, i).value) {
        HealthyLinks(t, i);
      }
    }
  }

  // ---------------------------------------------------------- owner bindings

  /** A metadata row names `i` as its owner. */
  ghost predicate Owned(t: Table, i: InodeId)
  {
    exists k :: k in t && t[k].ContentMetadataRecord? && t[k].metadata.owner == i
  }

  /** No insert gives a special inode an identity that retained metadata still names. */
  ghost predicate OwnerGuard(t: Table, q: Request)
  {
    forall c | c in q.changes && c.Insert? && c.record.InodeRecord? && !c.record.node.data.RegularData?
      :: !Owned(t, c.record.node.id)
  }

  /** Metadata that is new was inserted together with its regular inode. */
  lemma NewMetadata(t: Table, q: Request, revision: Revision, t': Table, k: Key) returns (d: Change)
    requires Stepped(t, q, revision, t') && ContentPaired(q.changes)
    requires k in t' && t'[k].ContentMetadataRecord? && k !in t
    ensures d in q.changes && d.Insert? && d.key == InodeKey(t'[k].metadata.owner) && d.record.InodeRecord?
    ensures ContentFile(d.record.node) == Some(t'[k].metadata.file)
    ensures d.record.node.context == Some(t'[k].metadata.context)
  {
    hide Stepped, Writes, Admits, ShapeError;
    RowNamed(t, q, revision, t', k);
    if !Touched(q.changes, k) {
      UntouchedKept(t, q, revision, t', k);
    }
    var c :| c in q.changes && Touches(c, k);
    ChangeAt(t, q, revision, t', c, k);
    InsertedMetadata(t, c, q, revision, k);
    d :| d in q.changes && PairsWithInode(c, d);
  }

  lemma InsertedMetadata(t: Table, c: Change, q: Request, revision: Revision, k: Key)
    requires ShapeError(c, q.mutation).None? && Admits(t, c, q) && Touches(c, k) && k.ContentMetadataKey? && k !in t
    requires Value(Writes(t, t, c, revision), k).Some?
    ensures NeedsInode(c) && c.key == k && Value(Writes(t, t, c, revision), k).value == Stamp(c.record, revision)
  {
  }

  lemma OldOwnerStaysBound(t: Table, q: Request, revision: Revision, t': Table, k: Key)
    requires Stepped(t, q, revision, t') && DistinctTargets(q.changes) && OwnersBound(t) && MetadataKept(t, t')
    requires k in t && t[k].ContentMetadataRecord? && InodeAt(t, t[k].metadata.owner).Some?
    ensures k in t' && t'[k].ContentMetadataRecord? && OwnerRowOk(t', t'[k].metadata)
  {
    var i := t[k].metadata.owner;
    assert OwnerRowOk(t, t[k].metadata);
    if InodeAt(t', i).Some? {
      InodeOrigin(t, q, revision, t', i);
      if c :| c in q.changes && InsertsAs(c, i, InodeAt(t', i).value) {
        assert Admits(t, c, q);
      }
    }
  }

  lemma InsertedOwnerBound(t: Table, q: Request, revision: Revision, t': Table, k: Key, c: Change)
    requires Stepped(t, q, revision, t') && DistinctTargets(q.changes) && ContentPaired(q.changes)
    requires OwnerGuard(t, q) && Unique(t') && MetadataKept(t, t')
    requires k in t' && t'[k].ContentMetadataRecord? && InodeAt(t', t'[k].metadata.owner).Some?
    requires c in q.changes && InsertsAs(c, t'[k].metadata.owner, InodeAt(t', t'[k].metadata.owner).value)
    ensures OwnerRowOk(t', t'[k].metadata)
  {
    assert ShapeError(c, q.mutation).None?;
    if c.record.node.data.RegularData? {
      InsertIsMatched(t, q, revision, t', c);
      var j := ContentMetadataKey(c.record.node.data.contentFile);
      assert j != k ==> !SameUnique(t'[j], t'[k]);
      assert Names(t'[j], j);
    } else {
      SpecialOwnsNothing(t, q, revision, t', k, c);
    }
  }

  /** A special inode is inserted only where no metadata names it. */
  lemma SpecialOwnsNothing(t: Table, q: Request, revision: Revision, t': Table, k: Key, c: Change)
    requires Stepped(t, q, revision, t') && DistinctTargets(q.changes) && ContentPaired(q.changes)
    requires OwnerGuard(t, q) && MetadataKept(t, t')
    requires c in q.changes && c.Insert? && c.record.InodeRecord? && !c.record.node.data.RegularData?
    requires k in t' && t'[k].ContentMetadataRecord?
    ensures t'[k].metadata.owner != c.record.node.id
  {
    assert ShapeError(c, q.mutation).None? && c.key == InodeKey(c.record.node.id);
    assert !Owned(t, c.record.node.id);
    assert Names(t'[k], k) && (k in t ==> Names(t[k], k));
    if t'[k].metadata.owner == c.record.node.id {
      assert k !in t;
      var d := NewMetadata(t, q, revision, t', k);
      OneWriter(q.changes, c, d, c.key);
    }
  }

  lemma InsertsWhereAbsent(t: Table, q: Request, revision: Revision, t': Table, c: Change)
    requires Stepped(t, q, revision, t') && c in q.changes && c.Insert?
    ensures c.key !in t
  {
    assert Admits(t, c, q);
  }

  lemma OwnerRowKept(t: Table, q: Request, revision: Revision, t': Table, k: Key)
    requires Stepped(t, q, revision, t') && DistinctTargets(q.changes) && ContentPaired(q.changes)
    requires OwnersBound(t) && OwnerGuard(t, q) && Unique(t') && MetadataKept(t, t')
    requires k in t' && t'[k].ContentMetadataRecord?
    ensures OwnerRowOk(t', t'[k].metadata)
  {
    hide DistinctTargets, ContentPaired, OwnersBound, OwnerGuard, Unique;
    var i := t'[k].metadata.owner;
    if InodeAt(t', i).Some? {
      InodeOrigin(t, q, revision, t', i);
      if c :| c in q.changes && InsertsAs(c, i, InodeAt(t', i).value) {
        InsertedOwnerBound(t, q, revision, t', k, c);
      } else if k in t {
        assert Names(t'[k], k) && Names(t[k], k);
        OldOwnerStaysBound(t, q, revision, t', k);
      } else {
        var d := NewMetadata(t, q, revision, t', k);
        InsertsWhereAbsent(t, q, revision, t', d);
      }
    }
  }

  /** Metadata stays bound to its owner exactly under the identity condition. */
  lemma OwnersBoundIffGuard(t: Table, q: Request, revision: Revision, depth: nat, t': Table)
    requires WellKeyed(t) && OwnersBound(t) && Unique(t') && Admitted(t, q, revision, depth, t')
    ensures OwnersBound(t') <==> OwnerGuard(t, q)
  {
    hide Admitted, PreflightOk, TransitionsOk, LocksOk, TargetedOk, DistinctTargets, ApplyAll, ContentPaired;
    hide Unique, Stepped;
    AdmittedSteps(t, q, revision, depth, t');
    AdmittedParts(t, q, revision, depth, t');
    MetadataIsPermanent(t, q, revision, t');
    if OwnerGuard(t, q) {
      forall k | k in t' && t'[k].ContentMetadataRecord? ensures OwnerRowOk(t', t'[k].metadata) {
        OwnerRowKept(t, q, revision, t', k);
      }
    } else {
      var c :| c in q.changes && c.Insert? && c.record.InodeRecord? && !c.record.node.data.RegularData?
               && Owned(t, c.record.node.id);
      var k :| k in t && t[k].ContentMetadataRecord? && t[k].metadata.owner == c.record.node.id;
      InsertedInode(t, q, revision, t', c);
      assert !OwnerRowOk(t', t'[k].metadata);
    }
  }

  lemma InsertedInode(t: Table, q: Request, revision: Revision, t': Table, c: Change)
    requires Stepped(t, q, revision, t') && c in q.changes && c.Insert? && c.record.InodeRecord?
    ensures InodeAt(t', c.record.node.id) == Some(c.record.node.(revision := revision))
  {
    assert ShapeError(c, q.mutation).None? && Touches(c, c.key);
    assert Lookup(t', c.key) == Value(Writes(t, t, c, revision), c.key);
  }

  // ------------------------------------------------- removing a filesystem

  /** Deletes every inode row. */
  ghost predicate RemovesInodes(t: Table, q: Request)
  {
    forall i | InodeAt(t, i).Some? :: Delete(InodeKey(i)) in q.changes
  }

  lemma InodesDeleted(t: Table, q: Request, revision: Revision, t': Table, i: InodeId)
    requires Stepped(t, q, revision, t') && InodeAt(t, i).Some?
    ensures InodeKey(i) !in t' <==> Delete(InodeKey(i)) in q.changes
  {
    hide Stepped, Writes, Admits, ShapeError;
    var k := InodeKey(i);
    RowNamed(t, q, revision, t', k);
    if Delete(k) in q.changes {
      ChangeAt(t, q, revision, t', Delete(k), k);
      OnlyDeleteRemoves(t, Delete(k), q, revision, i);
    }
    if c :| c in q.changes && Touches(c, k) {
      ChangeAt(t, q, revision, t', c, k);
      OnlyDeleteRemoves(t, c, q, revision, i);
    } else {
      UntouchedKept(t, q, revision, t', k);
    }
  }

  lemma OnlyDeleteRemoves(t: Table, c: Change, q: Request, revision: Revision, i: InodeId)
    requires ShapeError(c, q.mutation).None? && Admits(t, c, q) && Touches(c, InodeKey(i))
    requires InodeAt(t, i).Some? && InodeAt(t, i).value.id == i
    ensures !Allocates(c) && (Value(Writes(t, t, c, revision), InodeKey(i)).None? <==> c == Delete(InodeKey(i)))
  {
  }

  lemma {:induction false} NoneCounted(changes: seq<Change>)
    requires InodeInserts(changes) == 0
    ensures forall c | c in changes :: !InsertsInode(c)
    decreases |changes|
  {
    if changes != [] {
      var done := changes[..|changes| - 1];
      NoneCounted(done);
      assert forall c :: c in changes <==> c in done || c == changes[|changes| - 1];
    }
  }

  lemma DeletesHeaderAlone(changes: seq<Change>, c: Change)
    requires DistinctTargets(changes) && Delete(FilesystemKey) in changes && c in changes && Touches(c, FilesystemKey)
    ensures c == Delete(FilesystemKey)
  {
    var x :| 0 <= x < |changes| && changes[x] == Delete(FilesystemKey);
    var y :| 0 <= y < |changes| && changes[y] == c;
    assert x == y;
  }

  /** Deleting the header excludes an allocation, so no inode comes in. */
  lemma DeletionInsertsNone(t: Table, q: Request)
    requires TransitionsOk(Loaded(t, q), q.changes) && DistinctTargets(q.changes)
    requires HeaderAt(t).Some? && Delete(FilesystemKey) in q.changes
    ensures forall c | c in q.changes :: !InsertsInode(c)
  {
    hide TransitionsOk, Guarded, Loaded, DistinctTargets;
    NamespaceIsGuarded(t, q, Delete(FilesystemKey));
    DeclaredIs(q.changes, false);
    forall c | c in q.changes ensures !AdvancesMark(c, false) {
      if Touches(c, FilesystemKey) {
        DeletesHeaderAlone(q.changes, c);
      }
    }
    QidTaken(t, q, 0);
    NoneCounted(q.changes);
  }

  lemma RowNeedsInode(t: Table, k: Key)
    requires WellKeyed(t) && NoDangling(t) && HeaderAt(t).None? && k in t
    ensures t[k].ContentMetadataRecord? || t[k].MutationRecord? || t[k].WriterLeaseRecord?
            || exists i :: InodeAt(t, i).Some?
  {
    assert Names(t[k], k);
    match t[k]
    case InodeRecord(n) => assert InodeAt(t, n.id).Some?;
    case EntryRecord(e) => assert DependsOn(t, k, e.child);
    case OpenRecord(o) => assert DependsOn(t, k, o.inode);
    case OpenPinRecord(p) => assert DependsOn(t, k, p.inode);
    case OrphanRecord(o) => assert DependsOn(t, k, o.inode);
    case LockRecord(l) => assert DependsOn(t, k, l.inode);
    case XattrRecord(x) => assert DependsOn(t, k, x.inode);
    case XattrStagingRecord(x) => assert DependsOn(t, k, x.inode);
    case _ =>
  }

  /** With everything accounted and no header, the table is vacant exactly when it has
      no inode. */
  lemma VacantIffNoInode(t: Table)
    requires WellKeyed(t) && NoDangling(t) && HeaderAt(t).None?
    ensures Vacant(t) <==> forall i :: InodeAt(t, i).None?
  {
    if forall i :: InodeAt(t, i).None? {
      forall k | k in t ensures t[k].ContentMetadataRecord? || t[k].MutationRecord? || t[k].WriterLeaseRecord? {
        RowNeedsInode(t, k);
      }
    }
    if Vacant(t) {
      forall i ensures InodeAt(t, i).None? {
      }
    }
  }

  lemma HeaderGone(t: Table, q: Request, revision: Revision, t': Table)
    requires Stepped(t, q, revision, t') && Delete(FilesystemKey) in q.changes
    ensures HeaderAt(t').None?
  {
    hide Stepped;
    var c := Delete(FilesystemKey);
    assert Touches(c, FilesystemKey);
    ChangeAt(t, q, revision, t', c, FilesystemKey);
  }

  /** A request that deletes the header leaves nothing of the filesystem exactly when
      it deletes every inode. */
  lemma VacatedIff(t: Table, q: Request, revision: Revision, depth: nat, t': Table)
    requires WellKeyed(t) && Accounted(t) && HeaderAt(t).Some? && Admitted(t, q, revision, depth, t')
    requires Delete(FilesystemKey) in q.changes
    ensures HeaderAt(t').None? && (Vacant(t') <==> RemovesInodes(t, q))
  {
    AdmittedSteps(t, q, revision, depth, t');
    AdmittedParts(t, q, revision, depth, t');
    hide Admitted, Stepped, TransitionsOk, DistinctTargets, TargetedOk, ApplyAll, LocksOk, PreflightOk, ContentPaired;
    AccountedPreserved(t, q, revision, depth, t');
    SteppedParts(t, q, revision, t');
    HeaderGone(t, q, revision, t');
    VacantIffNoInode(t');
    DeletionInsertsNone(t, q);
    forall i | InodeAt(t, i).Some? ensures InodeKey(i) !in t' <==> Delete(InodeKey(i)) in q.changes {
      InodesDeleted(t, q, revision, t', i);
    }
    forall i | InodeAt(t', i).Some? ensures InodeAt(t, i).Some? {
      InodeOrigin(t, q, revision, t', i);
    }
    forall i | InodeKey(i) in t' ensures InodeAt(t', i).Some? {
      RowNamed(t, q, revision, t', InodeKey(i));
    }
  }

  // ---------------------------------------------------------- first requests

  predicate InsertsHeader(c: Change)
  {
    c.Insert? && c.key == FilesystemKey
  }

  /** What a request on a vacant table owes: with a header, QID paths below its mark;
      without one, no inodes. */
  ghost predicate FirstGuard(t: Table, q: Request)
  {
    if exists c :: c in q.changes && InsertsHeader(c)
    then OwnerGuard(t, q) && forall c, d | c in q.changes && d in q.changes && InsertsHeader(c) && InsertsInode(d)
           :: c.record.FilesystemRecord? && d.record.node.qidPath < c.record.header.nextQidPath
    else forall c | c in q.changes :: !InsertsInode(c)
  }

  /** The inodes after a request on a vacant table are those it inserts. */
  lemma FirstInodes(t: Table, q: Request, revision: Revision, t': Table, i: InodeId)
    requires Stepped(t, q, revision, t') && DistinctTargets(q.changes) && Vacant(t) && InodeAt(t', i).Some?
    ensures exists c :: c in q.changes && InsertsAs(c, i, InodeAt(t', i).value)
  {
    hide Stepped, DistinctTargets;
    InodeOrigin(t, q, revision, t', i);
  }

  lemma VacantHoldsNo(t: Table, k: Key)
    requires WellKeyed(t) && Vacant(t) && (k.FilesystemKey? || k.InodeKey? || k.EntryKey?)
    ensures k !in t
  {
    assert k in t ==> Names(t[k], k);
  }

  lemma FirstHeaderWrite(t: Table, c: Change, q: Request, revision: Revision)
    requires ShapeError(c, q.mutation).None? && Admits(t, c, q) && Touches(c, FilesystemKey) && FilesystemKey !in t
    ensures InsertsHeader(c) && c.record.FilesystemRecord? && !Allocates(c)
    ensures Value(Writes(t, t, c, revision), FilesystemKey)
            == Some(FilesystemRecord(c.record.header.(revision := revision)))
  {
  }

  /** The header after a request on a vacant table is the one it inserts. */
  lemma FirstHeader(t: Table, q: Request, revision: Revision, t': Table)
    requires Stepped(t, q, revision, t') && Vacant(t)
    ensures HeaderAt(t').Some? <==> exists c :: c in q.changes && InsertsHeader(c)
    ensures forall c | c in q.changes && InsertsHeader(c) ::
      c.record.FilesystemRecord? && HeaderAt(t') == Some(c.record.header.(revision := revision))
  {
    hide Stepped, Writes, Admits, ShapeError;
    SteppedParts(t, q, revision, t');
    VacantHoldsNo(t, FilesystemKey);
    forall c | c in q.changes && Touches(c, FilesystemKey)
      ensures InsertsHeader(c) && c.record.FilesystemRecord?
      ensures HeaderAt(t') == Some(c.record.header.(revision := revision))
    {
      ChangeAt(t, q, revision, t', c, FilesystemKey);
      FirstHeaderWrite(t, c, q, revision);
    }
    forall c | c in q.changes && InsertsHeader(c) ensures Touches(c, FilesystemKey) {
    }
    if !Touched(q.changes, FilesystemKey) {
      UntouchedKept(t, q, revision, t', FilesystemKey);
    }
  }

  lemma FirstCookies(t: Table, q: Request, revision: Revision, depth: nat, t': Table)
    requires Stepped(t, q, revision, t') && Vacant(t) && TargetedOk(t', Loaded(t, q), q.changes, depth)
    requires HeaderAt(t').Some?
    ensures CookiesBelow(t', HeaderAt(t').value.nextCookie)
  {
    hide Stepped, Writes, ShapeError, Loaded;
    SteppedParts(t, q, revision, t');
    forall k | k in t' && t'[k].EntryRecord? ensures t'[k].entry.cookie < HeaderAt(t').value.nextCookie {
      assert Names(t'[k], k);
      VacantHoldsNo(t, k);
      var c := ChangedEntry(t, q, revision, t', k);
      EntryWriteCookie(t, Loaded(t, q), c, q, revision, k);
      assert WrittenRowOk(t', c);
      if c.MoveEntry? {
        VacantHoldsNo(t, SourceKey(c));
      }
    }
  }

  lemma FirstQids(t: Table, q: Request, revision: Revision, t': Table, mark: nat)
    requires Stepped(t, q, revision, t') && DistinctTargets(q.changes) && Vacant(t)
    ensures QidsBelow(t', mark) <==> forall c | c in q.changes && InsertsInode(c) :: c.record.node.qidPath < mark
  {
    hide Stepped, DistinctTargets, Vacant;
    SteppedParts(t, q, revision, t');
    forall c | c in q.changes && InsertsInode(c)
      ensures c.key in t' && t'[c.key].InodeRecord? && t'[c.key].node.qidPath == c.record.node.qidPath
    {
      StoredQid(t, q, revision, t', c);
    }
    forall k | k in t' && t'[k].InodeRecord?
      ensures exists c :: c in q.changes && InsertsInode(c) && c.record.node.qidPath == t'[k].node.qidPath
    {
      assert Names(t'[k], k) && InodeAt(t', t'[k].node.id) == Some(t'[k].node);
      FirstInodes(t, q, revision, t', t'[k].node.id);
    }
  }

  lemma VacantIsSound(t: Table)
    requires WellKeyed(t) && Vacant(t)
    ensures Unborn(t) && Accounted(t) && ConflictFree(t) && Matched(t) && OwnersBound(t)
  {
    forall k: Key | k.FilesystemKey? || k.InodeKey? || k.EntryKey? ensures k !in t {
      VacantHoldsNo(t, k);
    }
  }

  /** A first request that creates the header leaves a healthy image exactly under its
      condition. */
  lemma FirstHealthy(t: Table, q: Request, revision: Revision, depth: nat, t': Table)
    requires WellKeyed(t) && ConstraintsHold(t) && Vacant(t) && Admitted(t, q, revision, depth, t')
    requires Stepped(t, q, revision, t') && HeaderAt(t').Some?
    ensures Healthy(t') <==> OwnerGuard(t, q) && forall c | c in q.changes && InsertsInode(c)
              :: c.record.node.qidPath < HeaderAt(t').value.nextQidPath
  {
    AdmittedParts(t, q, revision, depth, t');
    hide Admitted, Stepped, TransitionsOk, DistinctTargets, TargetedOk, ApplyAll, LocksOk, PreflightOk, ContentPaired;
    hide Written, WellShaped;
    SteppedParts(t, q, revision, t');
    VacantIsSound(t);
    hide Accounted, ConflictFree, Unique, Matched, OwnersBound, OwnerGuard, CookiesBelow, QidsBelow, Tree, WellKeyed;
    hide ConstraintsHold;
    AccountedPreserved(t, q, revision, depth, t');
    assert FilesystemKey in t';
    BootstrapMakesTree(t, q, revision, depth, t');
    ConflictFreePreserved(t, q.changes, q.mutation, revision, t');
    AppliedKeepsConstraints(t, Loaded(t, q), q.changes, q, revision);
    UniqueFromConstraints(t');
    MatchedPreserved(t, q, revision, depth, t');
    OwnersBoundIffGuard(t, q, revision, depth, t');
    FirstCookies(t, q, revision, depth, t');
    FirstQids(t, q, revision, t', HeaderAt(t').value.nextQidPath);
  }

  lemma FirstVacant(t: Table, q: Request, revision: Revision, depth: nat, t': Table)
    requires WellKeyed(t) && Vacant(t) && Admitted(t, q, revision, depth, t')
    requires Stepped(t, q, revision, t') && DistinctTargets(q.changes) && HeaderAt(t').None?
    ensures Vacant(t') <==> forall c | c in q.changes :: !InsertsInode(c)
  {
    hide Admitted, Stepped, DistinctTargets;
    SteppedParts(t, q, revision, t');
    VacantIsSound(t);
    AccountedPreserved(t, q, revision, depth, t');
    hide Accounted, Vacant, WellKeyed;
    AccountedParts(t');
    VacantIffNoInode(t');
    FirstInsertsSeen(t, q, revision, t');
  }

  /** A request on a vacant table leaves a healthy image, or a vacant one, exactly
      under its condition. */
  lemma FirstHealth(t: Table, q: Request, revision: Revision, depth: nat, t': Table)
    requires WellKeyed(t) && ConstraintsHold(t) && Vacant(t) && Admitted(t, q, revision, depth, t')
    ensures if HeaderAt(t').Some? then Healthy(t') <==> FirstGuard(t, q) else Vacant(t') <==> FirstGuard(t, q)
  {
    AdmittedSteps(t, q, revision, depth, t');
    AdmittedParts(t, q, revision, depth, t');
    hide Admitted, Stepped, TransitionsOk, DistinctTargets, TargetedOk, ApplyAll, LocksOk, PreflightOk, ContentPaired;
    hide WellShaped, Healthy, Vacant, OwnerGuard, WellKeyed, ConstraintsHold;
    FirstHeader(t, q, revision, t');
    if HeaderAt(t').Some? {
      FirstHealthy(t, q, revision, depth, t');
    } else {
      FirstVacant(t, q, revision, depth, t');
    }
  }

  lemma AccountedParts(t: Table)
    requires Accounted(t)
    ensures NoDangling(t)
  {
  }

  lemma FirstInsertsSeen(t: Table, q: Request, revision: Revision, t': Table)
    requires Stepped(t, q, revision, t') && DistinctTargets(q.changes) && Vacant(t)
    ensures (forall i :: InodeAt(t', i).None?) <==> forall c | c in q.changes :: !InsertsInode(c)
  {
    hide Stepped, DistinctTargets, Vacant;
    forall c | c in q.changes && InsertsInode(c) ensures InodeAt(t', c.record.node.id).Some? {
      InsertedInode(t, q, revision, t', c);
    }
    forall i | InodeAt(t', i).Some? ensures exists c :: c in q.changes && InsertsInode(c) {
      FirstInodes(t, q, revision, t', i);
    }
  }

  // ------------------------------------------------------------- refinement

  /** What the caller owes for the whole image. */
  ghost predicate ImageGuard(t: Table, q: Request)
  {
    if HeaderAt(t).None? then FirstGuard(t, q)
    else if Delete(FilesystemKey) in q.changes then RemovesInodes(t, q)
    else TreeGuard(t, q) && QidGuard(t, q) && OwnerGuard(t, q)
  }

  lemma UniqueFromConstraints(t: Table)
    requires ConstraintsHold(t)
    ensures Unique(t)
  {
  }

  lemma HealthKept(t: Table, q: Request, revision: Revision, depth: nat, t': Table)
    requires WellKeyed(t) && ConstraintsHold(t) && Healthy(t) && Admitted(t, q, revision, depth, t')
    requires Delete(FilesystemKey) !in q.changes
    ensures HeaderAt(t').Some? && (Healthy(t') <==> TreeGuard(t, q) && QidGuard(t, q) && OwnerGuard(t, q))
  {
    hide Admitted, PreflightOk, TransitionsOk, LocksOk, TargetedOk, DistinctTargets, ApplyAll, ContentPaired, Stepped;
    hide Tree, TreeGuard, Accounted, ConflictFree, Matched, OwnersBound, OwnerGuard, QidsBelow, QidGuard, CookiesBelow;
    hide Unique, ConstraintsHold, WellKeyed, WellShaped, Written;
    assert HeaderAt(t).Some? by { TreeHasHeader(t); }
    AdmittedSteps(t, q, revision, depth, t');
    AdmittedParts(t, q, revision, depth, t');
    SteppedParts(t, q, revision, t');
    TreeIffGuard(t, q, revision, depth, t');
    AccountedPreserved(t, q, revision, depth, t');
    ConflictFreePreserved(t, q.changes, q.mutation, revision, t');
    AppliedKeepsConstraints(t, Loaded(t, q), q.changes, q, revision);
    UniqueFromConstraints(t');
    MatchedPreserved(t, q, revision, depth, t');
    OwnersBoundIffGuard(t, q, revision, depth, t');
    CookiesStayBelow(t, q, revision, depth, t');
    QidsBelowIffGuard(t, q, revision, depth, t');
  }

  lemma TreeHasHeader(t: Table)
    requires Tree(t)
    ensures HeaderAt(t).Some?
  {
  }

  /** The directories of a standing filesystem fit the depth. */
  ghost predicate FitsDepth(t: Table, depth: nat)
  {
    HeaderAt(t).Some? ==> AncestryBounded(t, depth)
  }

  /** After an accepted request on a valid image: the constraints hold, and the image
      is healthy or vacant exactly under the caller condition. */
  lemma ImageKept(t: Table, q: Request, revision: Revision, depth: nat, t': Table, before: nat)
    requires ConstraintsHold(t) && ImageOk(t, before) && Admitted(t, q, revision, depth, t')
    ensures WellKeyed(t') && Unique(t')
    ensures (if HeaderAt(t').Some? then Healthy(t') else Vacant(t')) <==> ImageGuard(t, q)
  {
    ImageIffHealthy(t, before);
    hide ImageOk, ConstraintsHold;
    AdmittedSteps(t, q, revision, depth, t');
    AdmittedParts(t, q, revision, depth, t');
    SteppedParts(t, q, revision, t');
    hide Admitted, Stepped, TransitionsOk, DistinctTargets, TargetedOk, ApplyAll, LocksOk, PreflightOk, ContentPaired;
    hide Written, WellShaped, WellKeyed, Unique, Vacant, FirstGuard, RemovesInodes, TreeGuard, QidGuard, OwnerGuard;
    AppliedKeepsConstraints(t, Loaded(t, q), q.changes, q, revision);
    UniqueFromConstraints(t');
    if HeaderAt(t).None? {
      FirstHealth(t, q, revision, depth, t');
    } else if Delete(FilesystemKey) in q.changes {
      HealthyIsAccounted(t);
      VacatedIff(t, q, revision, depth, t');
    } else {
      HealthKept(t, q, revision, depth, t');
    }
  }

  lemma HealthyIsAccounted(t: Table)
    requires Healthy(t)
    ensures Accounted(t)
  {
  }

  /** Refinement: on a valid image, a request the targeted checks accept leaves a valid
      image for every depth its directories fit in, if and only if the caller
      conditions hold. */
  lemma TargetedRefinesImage(t: Table, q: Request, revision: Revision, depth: nat, t': Table, before: nat, after: nat)
    requires ConstraintsHold(t) && ImageOk(t, before) && Admitted(t, q, revision, depth, t')
    ensures ImageOk(t', after) <==> ImageGuard(t, q) && FitsDepth(t', after)
  {
    hide ImageOk, Healthy, Vacant, Admitted, ImageGuard, AncestryBounded, ConstraintsHold, WellKeyed, Unique;
    ImageKept(t, q, revision, depth, t', before);
    ImageIffHealthy(t', after);
  }

  // ----------------------------------------------------------- the converse

  /** A written entry or lock that the whole image accepts passes the targeted check. */
  lemma WrittenRowFine(t: Table, q: Request, revision: Revision, t': Table, depth: nat, c: Change)
    requires Stepped(t, q, revision, t') && ImageOk(t', depth) && c in q.changes
    ensures WrittenRowOk(t', c)
  {
    hide Stepped, Writes, Admits, ShapeError;
    if c.Insert? || c.Replace? {
      assert Touches(c, c.key);
      ChangeAt(t, q, revision, t', c, c.key);
      StampedRow(t, c, revision);
      assert RowOk(t', t'[c.key], depth);
    }
  }

  lemma StampedRow(t: Table, c: Change, revision: Revision)
    requires c.Insert? || c.Replace?
    ensures !Allocates(c)
    ensures Value(Writes(t, t, c, revision), c.key) == Some(Stamp(c.record, revision))
    ensures c.record.EntryRecord? ==>
      Stamp(c.record, revision) == EntryRecord(c.record.entry.(revision := revision))
    ensures c.record.LockRecord? ==>
      Stamp(c.record, revision) == LockRecord(c.record.lock.(revision := revision))
  {
  }

  lemma {:induction false} OneOfMany(a: set<Key>, b: set<Key>)
    requires |a| == 1 && a <= b
    ensures |a * b| == 1
  {
    assert a * b == a;
  }

  lemma ImageInodeFine(t: Table, i: InodeId, depth: nat)
    requires ImageOk(t, depth)
    ensures InodeOk(t, i, depth)
  {
    if InodeAt(t, i).None? {
      forall k | k in t ensures !DependsOn(t, k, i) {
        assert RowOk(t, t[k], depth);
      }
    } else {
      var n := InodeAt(t, i).value;
      InodeRow(t, i);
      assert RowOk(t, t[InodeKey(i)], depth) && LinkRowOk(t, n);
      assert RowOk(t, t[FilesystemKey], depth);
      if |EntriesTo(t, i)| == 1 && n.data.DirectoryData? && EntriesTo(t, i) <= EntriesIn(t, n.data.parent) {
        OneOfMany(EntriesTo(t, i), EntriesIn(t, n.data.parent));
      }
      if OrphanAt(t, i).Some? {
        assert Names(t[OrphanKey(i)], OrphanKey(i)) && RowOk(t, t[OrphanKey(i)], depth);
      }
    }
  }

  lemma ImageOpenFine(t: Table, o: OpenId, depth: nat)
    requires ImageOk(t, depth)
    ensures OpenOk(t, o)
  {
    forall k | k in t ensures RowOk(t, t[k], depth) {
    }
  }

  lemma ImageHeaderFine(t: Table, depth: nat)
    requires ImageOk(t, depth)
    ensures HeaderOk(t)
  {
    if HeaderAt(t).Some? {
      assert RowOk(t, t[FilesystemKey], depth);
    } else {
      VacantImage(t, depth);
    }
  }

  /** Whatever the whole image accepts, the targeted checks accept. */
  lemma ImageImpliesTargeted(t: Table, q: Request, revision: Revision, t': Table, depth: nat)
    requires Stepped(t, q, revision, t') && ImageOk(t', depth)
    ensures TargetedOk(t', Loaded(t, q), q.changes, depth)
  {
    hide Stepped, ImageOk, WrittenRowOk, InodeOk, OpenOk, HeaderOk, Loaded;
    ImageHeaderFine(t', depth);
    forall c | c in q.changes ensures WrittenRowOk(t', c) {
      WrittenRowFine(t, q, revision, t', depth, c);
    }
    forall i ensures InodeOk(t', i, depth) {
      ImageInodeFine(t', i, depth);
    }
    forall o ensures OpenOk(t', o) {
      ImageOpenFine(t', o, depth);
    }
  }

  /** Everything the database store checks before its final validation, and the table
      it then validates. */
  ghost predicate Proposed(t: Table, q: Request, revision: Revision, t': Table)
  {
    && PreflightOk(q) && PreconditionsHold(t, q)
    && TransitionsOk(Loaded(t, q), q.changes) && LocksOk(t, q.changes)
    && ApplyAll(t, Loaded(t, q), q.changes, q, revision) == Done(t')
  }

  lemma ProposedSteps(t: Table, q: Request, revision: Revision, t': Table)
    requires WellKeyed(t) && Proposed(t, q, revision, t')
    ensures Stepped(t, q, revision, t')
  {
    LoadedCoversTargets(t, q);
    AppliedIsWritten(t, Loaded(t, q), q.changes, q, revision);
  }

  /** The two validators, behind the earlier checks of the database store and on any
      valid image: the whole-image validator accepts exactly what the targeted checks
      accept, the caller conditions allow and the depth admits. */
  lemma ValidatorsAgree(t: Table, q: Request, revision: Revision, depth: nat, t': Table, before: nat)
    requires ConstraintsHold(t) && ImageOk(t, before) && Proposed(t, q, revision, t')
    ensures ImageOk(t', depth) <==>
            TargetedOk(t', Loaded(t, q), q.changes, depth) && ImageGuard(t, q) && FitsDepth(t', depth)
  {
    assert WellKeyed(t);
    hide ImageOk, ImageGuard, FitsDepth, TargetedOk, Stepped, WellKeyed, ConstraintsHold;
    ProposedSteps(t, q, revision, t');
    if ImageOk(t', depth) {
      ImageImpliesTargeted(t, q, revision, t', depth);
    }
    if TargetedOk(t', Loaded(t, q), q.changes, depth) {
      assert Admitted(t, q, revision, depth, t');
      hide Admitted;
      TargetedRefinesImage(t, q, revision, depth, t', before, depth);
    }
  }

  // ------------------------------------------------------------- some depth

  lemma {:induction false} DeeperStillReaches(t: Table, i: InodeId, root: InodeId, small: nat, large: nat)
    requires Ancestry(t, i, root, small) && small <= large
    ensures Ancestry(t, i, root, large)
    decreases small
  {
    if i != root {
      DeeperStillReaches(t, InodeAt(t, i).value.data.parent, root, small - 1, large - 1);
    }
  }

  /** One depth serves finitely many directories. */
  lemma {:induction false} CommonDepth(t: Table, root: InodeId, keys: set<Key>) returns (depth: nat)
    requires forall i | InodeKey(i) in keys :: Reaches(t, i, root)
    ensures forall i | InodeKey(i) in keys :: Ancestry(t, i, root, depth)
    decreases |keys|
  {
    if keys == {} {
      depth := 0;
    } else {
      var k :| k in keys;
      var rest := CommonDepth(t, root, keys - {k});
      depth := rest;
      if k.InodeKey? {
        var own: nat :| Ancestry(t, k.inode, root, own);
        depth := if rest < own then own else rest;
        DeeperStillReaches(t, k.inode, root, own, depth);
      }
      forall i | InodeKey(i) in keys && InodeKey(i) != k ensures Ancestry(t, i, root, depth) {
        assert InodeKey(i) in keys - {k};
        DeeperStillReaches(t, i, root, rest, depth);
      }
    }
  }

  /** A tree fits some depth. */
  lemma TreeFitsSomeDepth(t: Table) returns (depth: nat)
    requires WellKeyed(t) && Tree(t)
    ensures AncestryBounded(t, depth)
  {
    var root := HeaderAt(t).value.root;
    var live := set k | k in t && k.InodeKey? && IsDirectory(t, k.inode) && InodeAt(t, k.inode).value.linkCount != 0;
    forall i | InodeKey(i) in live ensures Reaches(t, i, root) {
      InodeRow(t, i);
      if i == root {
        assert RootPlaced(t, root) && Ancestry(t, root, root, 0);
      } else {
        assert NodePlaced(t, root, InodeAt(t, i).value);
      }
    }
    depth := CommonDepth(t, root, live);
    forall i | IsDirectory(t, i) && InodeAt(t, i).value.linkCount != 0 ensures Ancestry(t, i, root, depth) {
      assert InodeKey(i) in live;
    }
  }

  /** Without the depth bound: an accepted request leaves an image the whole-image
      validator accepts at some depth exactly under the caller conditions. */
  lemma TargetedRefinesImageAtSomeDepth(t: Table, q: Request, revision: Revision, depth: nat, t': Table, before: nat)
    requires ConstraintsHold(t) && ImageOk(t, before) && Admitted(t, q, revision, depth, t')
    ensures (exists after: nat :: ImageOk(t', after)) <==> ImageGuard(t, q)
  {
    hide ImageOk, Admitted, ImageGuard, ConstraintsHold, Vacant, Unique, WellKeyed, AncestryBounded, Healthy;
    ImageKept(t, q, revision, depth, t', before);
    if ImageGuard(t, q) {
      var after := 0;
      if HeaderAt(t').Some? {
        assert Tree(t') by { HealthyIsTree(t'); }
        after := TreeFitsSomeDepth(t');
      }
      ImageIffHealthy(t', after);
      assert ImageOk(t', after);
    }
    if after: nat :| ImageOk(t', after) {
      ImageIffHealthy(t', after);
    }
  }

  lemma HealthyIsTree(t: Table)
    requires Healthy(t)
    ensures Tree(t)
  {
  }
}
