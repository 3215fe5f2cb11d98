/** The rows a commit locks and loads, and its preconditions
    (crates/w9pt-fs-state-postgres/src/commit.rs `lock_keys`, `evaluate_preconditions`). */
module Loading {
  import opened Values
  import opened Records
  import opened Requests
  import opened Applying
  import opened Effects

  function EntryOf(c: Change): Option<Entry>
  {
    match c
    case Insert(_, EntryRecord(e)) => Some(e)
    case Replace(_, EntryRecord(e)) => Some(e)
    case _ => None
  }

  /** The keys one change locks: its own, and the neighbourhood of an entry change. */
  function ChangeKeys(c: Change): set<Key>
  {
    Targets(c) +
    match c
    case Insert(_, EntryRecord(e)) => {FilesystemKey, InodeKey(e.parent), InodeKey(e.child)}
    case Replace(_, EntryRecord(e)) => {FilesystemKey, InodeKey(e.parent), InodeKey(e.child)}
    case Delete(EntryKey(p, _)) => {FilesystemKey, InodeKey(p)}
    case MoveEntry(p, _, e) => {FilesystemKey, InodeKey(p), InodeKey(e.parent), InodeKey(e.child)}
    case _ => {}
  }

  function PreconditionKeys(p: Precondition): set<Key>
  {
    match p
    case RecordAbsent(k) => {k}
    case RecordRevision(k, _) => {k}
    case InodeGeneration(i, _) => {InodeKey(i)}
    case DataGeneration(i, _) => {InodeKey(i)}
    case DirectoryGenerationIs(i, _) => {InodeKey(i)}
    case ContentBaseIs(i, _) => {InodeKey(i)}
    case LinkCountIs(i, _) => {InodeKey(i)}
    case OpenPinCountIs(_, _) => {}
    case PolicyGenerationIs(_) => {FilesystemKey}
    case ExactFence(_) => {}
  }

  /** The request's own ledger row and fence row are handled apart. */
  predicate Own(q: Request, k: Key)
  {
    k == MutationKey(q.mutation.id) || k == WriterLeaseKey(q.fence.scope)
  }

  ghost predicate Locked(q: Request, k: Key)
  {
    && !Own(q, k)
    && ((exists c :: c in q.changes && k in ChangeKeys(c))
        || (exists p :: p in q.preconditions && k in PreconditionKeys(p)))
  }

  ghost function Loaded(t: Table, q: Request): (r: Table)
  {
    map k | k in t && Locked(q, k) :: t[k]
  }

  /** A guarded request has the filesystem header among its loaded rows. */
  ghost predicate Guarded(t: Table, q: Request)
  {
    FilesystemKey in Loaded(t, q)
  }

  method LockKeys(q: Request) returns (keys: set<Key>)
    ensures forall k :: k in keys <==> Locked(q, k)
  {
    keys := {};
    for i := 0 to |q.changes|
      invariant forall k :: k in keys <==> exists c :: c in q.changes[..i] && k in ChangeKeys(c)
    {
      assert q.changes[..i + 1] == q.changes[..i] + [q.changes[i]];
      assert forall c :: c in q.changes[..i + 1] <==> c in q.changes[..i] || c == q.changes[i];
      keys := keys + ChangeKeys(q.changes[i]);
    }
    assert q.changes[..|q.changes|] == q.changes;
    ghost var fromChanges := keys;
    for i := 0 to |q.preconditions|
      invariant forall k :: k in keys <==>
                  (k in fromChanges || exists p :: p in q.preconditions[..i] && k in PreconditionKeys(p))
    {
      assert q.preconditions[..i + 1] == q.preconditions[..i] + [q.preconditions[i]];
      assert forall p :: p in q.preconditions[..i + 1]
                    <==> p in q.preconditions[..i] || p == q.preconditions[i];
      keys := keys + PreconditionKeys(q.preconditions[i]);
    }
    assert q.preconditions[..|q.preconditions|] == q.preconditions;
    keys := keys - {MutationKey(q.mutation.id), WriterLeaseKey(q.fence.scope)};
  }

  method LoadRecords(t: Table, q: Request) returns (records: Table)
    ensures records == Loaded(t, q)
  {
    var keys := LockKeys(q);
    var rest := keys;
    records := map[];
    while rest != {}
      invariant rest <= keys
      invariant forall k :: k in records <==> k in keys && k !in rest && k in t
      invariant forall k | k in records :: records[k] == t[k]
      decreases |rest|
    {
      var k :| k in rest;
      if k in t {
        records := records[k := t[k]];
      }
      rest := rest - {k};
    }
  }

  /** Preflight leaves no change on a store-owned row, so every written row is loaded. */
  lemma LoadedCoversTargets(t: Table, q: Request)
    requires WellShaped(q.changes, q.mutation)
    ensures LoadedFrom(t, Loaded(t, q), q.changes)
    ensures forall c, k | c in q.changes && Touches(c, k) :: !Own(q, k)
  {
    forall c, k | c in q.changes && Touches(c, k)
      ensures Lookup(Loaded(t, q), k) == Lookup(t, k) && !Own(q, k)
    {
      assert ShapeError(c, q.mutation).None?;
      assert k in ChangeKeys(c);
    }
  }

  /** The change writes or removes a name under directory `p`. */
  ghost predicate NamesUnder(c: Change, p: InodeId)
  {
    exists name :: Touches(c, EntryKey(p, name))
  }

  /** The change writes a name of inode `i`. */
  predicate NamesChild(c: Change, i: InodeId)
  {
    || ((c.Insert? || c.Replace?) && c.record.EntryRecord? && c.record.entry.child == i)
    || (c.MoveEntry? && c.destination.child == i)
  }

  /** Truth of the precondition depends on the row at `k`. */
  predicate Watches(p: Precondition, k: Key)
  {
    match p
    case RecordAbsent(x) => k == x
    case RecordRevision(x, _) => k == x
    case OpenPinCountIs(i, _) => k.OpenPinKey? && k.inode == i
    case PolicyGenerationIs(_) => k.FilesystemKey?
    case ExactFence(_) => false
    case _ => k == InodeKey(p.inode)
  }

  lemma NamesUnderIs(c: Change, p: InodeId)
    ensures NamesUnder(c, p) <==>
      || ((c.Insert? || c.Replace? || c.Delete?) && c.key.EntryKey? && c.key.parent == p)
      || (c.MoveEntry? && (c.sourceParent == p || c.destination.parent == p))
  {
    if c.MoveEntry? {
      assert Touches(c, SourceKey(c)) && Touches(c, DestinationKey(c));
    } else if (c.Insert? || c.Replace? || c.Delete?) && c.key.EntryKey? {
      assert Touches(c, EntryKey(c.key.parent, c.key.name));
    }
  }

  /** What one well-shaped change locks: the rows it writes, and with every name it
      writes or removes the header, the directory and the named inode. */
  lemma ChangeKeysMean(c: Change, m: MutationContext, k: Key)
    requires ShapeError(c, m).None?
    ensures k in ChangeKeys(c) <==>
      || Touches(c, k)
      || (k.FilesystemKey? && exists p :: NamesUnder(c, p))
      || (k.InodeKey? && (NamesUnder(c, k.inode) || NamesChild(c, k.inode)))
  {
    hide NamesUnder, Touches;
    forall p ensures NamesUnder(c, p) <==>
      || ((c.Insert? || c.Replace? || c.Delete?) && c.key.EntryKey? && c.key.parent == p)
      || (c.MoveEntry? && (c.sourceParent == p || c.destination.parent == p))
    {
      NamesUnderIs(c, p);
    }
    if c.MoveEntry? {
      assert NamesUnder(c, c.sourceParent);
    } else if (c.Insert? || c.Replace? || c.Delete?) && c.key.EntryKey? {
      assert NamesUnder(c, c.key.parent);
    }
  }

  /** The loaded rows: what the changes write, the header and the two inodes beside every
      name they write or remove, and what the preconditions look at except pins; never
      the request's own ledger and fence rows. */
  lemma LockedMeans(q: Request, k: Key)
    requires WellShaped(q.changes, q.mutation)
    ensures Locked(q, k) <==>
      && k != MutationKey(q.mutation.id) && k != WriterLeaseKey(q.fence.scope)
      && ((exists c :: c in q.changes &&
             (|| Touches(c, k)
              || (k.FilesystemKey? && exists p :: NamesUnder(c, p))
              || (k.InodeKey? && (NamesUnder(c, k.inode) || NamesChild(c, k.inode)))))
          || exists p :: p in q.preconditions && !p.OpenPinCountIs? && Watches(p, k))
  {
    hide ChangeKeys, ShapeError, Touches;
    forall c | c in q.changes
      ensures k in ChangeKeys(c) <==>
        || Touches(c, k)
        || (k.FilesystemKey? && exists p :: NamesUnder(c, p))
        || (k.InodeKey? && (NamesUnder(c, k.inode) || NamesChild(c, k.inode)))
    {
      ChangeKeysMean(c, q.mutation, k);
    }
    forall p | p in q.preconditions ensures k in PreconditionKeys(p) <==> !p.OpenPinCountIs? && Watches(p, k) {
    }
  }

  /** Requests that touch the namespace or the header are guarded whenever a header exists. */
  predicate NamespaceChange(c: Change)
  {
    || EntryOf(c).Some?
    || (c.Delete? && c.key.EntryKey?)
    || c.MoveEntry?
    || Touches(c, FilesystemKey)
  }

  lemma NamespaceIsGuarded(t: Table, q: Request, c: Change)
    requires c in q.changes && NamespaceChange(c) && FilesystemKey in t
    ensures Guarded(t, q)
  {
    assert FilesystemKey in ChangeKeys(c);
  }

  // --------------------------------------------------------- preconditions

  function ConflictOf(p: Precondition, t: Table, loaded: Table, q: Request): Option<ConflictKind>
  {
    match p
    case RecordAbsent(k) => if k in loaded then Some(RecordPresent(k)) else None
    case RecordRevision(k, expected) =>
      if k !in loaded then Some(RecordMissing(k))
      else if RevisionOf(loaded[k]) != expected
        then Some(RevisionDiffers(k, expected, RevisionOf(loaded[k])))
      else None
    case InodeGeneration(i, g) =>
      if InodeAt(loaded, i).Some? && InodeAt(loaded, i).value.inodeGeneration == g then None
      else Some(InodeGenerationDiffers)
    case DataGeneration(i, g) =>
      if InodeAt(loaded, i).Some? && DataGenerationOf(InodeAt(loaded, i).value) == g then None
      else Some(DataGenerationDiffers)
    case DirectoryGenerationIs(i, g) =>
      if InodeAt(loaded, i).Some? && DirectoryGeneration(InodeAt(loaded, i).value) == Some(g) then None
      else Some(DirectoryGenerationDiffers)
    case ContentBaseIs(i, base) =>
      if InodeAt(loaded, i).Some? && ContentBase(InodeAt(loaded, i).value) == Some(base) then None
      else Some(ContentBaseDiffers)
    case LinkCountIs(i, n) =>
      if InodeAt(loaded, i).Some? && InodeAt(loaded, i).value.linkCount == n then None
      else Some(LinkCountDiffers)
    case OpenPinCountIs(i, n) => if |Pins(t, i)| == n then None else Some(OpenPinCountDiffers)
    case PolicyGenerationIs(g) =>
      if HeaderAt(loaded).Some? && HeaderAt(loaded).value.policyGeneration == g then None
      else Some(PolicyGenerationDiffers)
    case ExactFence(f) => if f == q.fence then None else Some(FenceDiffers)
  }

  function DataGenerationOf(n: Inode): Option<nat>
  {
    if n.data.RegularData? && n.data.dataGeneration > 0 then Some(n.data.dataGeneration) else None
  }

  ghost predicate PreconditionsHold(t: Table, q: Request)
  {
    forall p | p in q.preconditions :: ConflictOf(p, t, Loaded(t, q), q).None?
  }

  /** The content a regular file stores, or that it stores none, as a publication names
      its base: generation and digest, both zero for a file never published. */
  predicate StartsFrom(n: Inode, base: Base)
  {
    && n.data.RegularData?
    && match n.data.content
       case None => base.generation == 0 && |base.digest| == 32 && forall b | b in base.digest :: b == 0
       case Some(c) => base.generation == c.generation && base.digest == c.manifestDigest
  }

  lemma StartsFromIsBase(n: Inode, base: Base)
    ensures StartsFrom(n, base) <==> ContentBase(n) == Some(base)
  {
    if n.data.RegularData? && n.data.content.None? && StartsFrom(n, base) {
      forall i | 0 <= i < 32 ensures base.digest[i] == ZERO_DIGEST[i] {
        assert base.digest[i] in base.digest;
      }
      assert base.digest == ZERO_DIGEST;
    }
  }

  lemma PinsAreOpens(t: Table, i: InodeId)
    ensures |set k | k in t && k.OpenPinKey? && k.inode == i :: k.open| == |Pins(t, i)|
  {
    var opens := set k | k in t && k.OpenPinKey? && k.inode == i :: k.open;
    OpenPinsCounted(i, opens);
    assert Pins(t, i) == set o | o in opens :: OpenPinKey(i, o);
  }

  lemma {:induction false} OpenPinsCounted(i: InodeId, opens: set<OpenId>)
    ensures |set o | o in opens :: OpenPinKey(i, o)| == |opens|
    decreases opens
  {
    if opens != {} {
      var x :| x in opens;
      OpenPinsCounted(i, opens - {x});
      assert (set o | o in opens :: OpenPinKey(i, o))
          == (set o | o in opens - {x} :: OpenPinKey(i, o)) + {OpenPinKey(i, x)};
    }
  }

  /** What a precondition says about the table, on the stored fields. */
  ghost predicate Meaning(p: Precondition, t: Table, q: Request)
  {
    match p
    case RecordAbsent(k) => k !in t
    case RecordRevision(k, expected) => k in t && RevisionOf(t[k]) == expected
    case InodeGeneration(i, g) => exists n :: InodeAt(t, i) == Some(n) && n.inodeGeneration == g
    case DataGeneration(i, None) =>
      exists n :: InodeAt(t, i) == Some(n) && (n.data.RegularData? ==> n.data.dataGeneration == 0)
    case DataGeneration(i, Some(g)) =>
      exists n :: InodeAt(t, i) == Some(n) && n.data.RegularData? && n.data.dataGeneration == g > 0
    case DirectoryGenerationIs(i, g) =>
      exists n :: InodeAt(t, i) == Some(n) && n.data.DirectoryData? && n.data.generation == g
    case ContentBaseIs(i, base) => exists n :: InodeAt(t, i) == Some(n) && StartsFrom(n, base)
    case LinkCountIs(i, c) => exists n :: InodeAt(t, i) == Some(n) && n.linkCount == c
    case OpenPinCountIs(i, c) => |set k | k in t && k.OpenPinKey? && k.inode == i :: k.open| == c
    case PolicyGenerationIs(g) => exists h :: HeaderAt(t) == Some(h) && h.policyGeneration == g
    case ExactFence(f) => f == q.fence
  }

  /** A precondition evaluated on the loaded rows holds exactly when it is true of the
      whole table, unless it names the request's own ledger or fence row. */
  lemma PreconditionIsTrue(t: Table, q: Request, p: Precondition)
    requires p in q.preconditions && forall k | k in PreconditionKeys(p) :: !Own(q, k)
    ensures ConflictOf(p, t, Loaded(t, q), q).None? <==> Meaning(p, t, q)
  {
    PreconditionSeesTheTable(t, q, p);
    if p.ContentBaseIs? && InodeAt(t, p.inode).Some? {
      StartsFromIsBase(InodeAt(t, p.inode).value, p.base);
    } else if p.OpenPinCountIs? {
      PinsAreOpens(t, p.inode);
    }
  }

  /** Evaluating a precondition on the loaded rows is evaluating it on the whole
      table, except for the request's own ledger and fence rows. */
  lemma PreconditionSeesTheTable(t: Table, q: Request, p: Precondition)
    requires p in q.preconditions && forall k | k in PreconditionKeys(p) :: !Own(q, k)
    ensures ConflictOf(p, t, Loaded(t, q), q) == ConflictOf(p, t, t, q)
  {
    forall k | k in PreconditionKeys(p) ensures Lookup(Loaded(t, q), k) == Lookup(t, k) {
      assert Locked(q, k);
    }
  }

  /** A precondition on one of the request's own rows that says of a standing row that
      it is absent, or what revision it has. */
  ghost predicate Misjudged(p: Precondition, t: Table, q: Request)
  {
    exists k :: Own(q, k) && k in t && (p == RecordAbsent(k) || p == RecordRevision(k, RevisionOf(t[k])))
  }

  lemma OwnRowNotLoaded(t: Table, q: Request, k: Key)
    requires Own(q, k)
    ensures k !in Loaded(t, q)
  {
    assert !Locked(q, k);
  }

  /** A precondition is judged as the whole table has it exactly when it is none of the
      misjudged ones: absence of an own row is always accepted and its revision always
      refused. Past the ledger probe and the fence check the own ledger row is absent
      and the own lease stands, which leaves two preconditions. */
  lemma PreconditionExact(t: Table, q: Request, p: Precondition)
    requires p in q.preconditions
    ensures (ConflictOf(p, t, Loaded(t, q), q).None? <==> Meaning(p, t, q)) <==> !Misjudged(p, t, q)
    ensures var own := WriterLeaseKey(q.fence.scope);
            own in t && MutationKey(q.mutation.id) !in t ==>
              (Misjudged(p, t, q) <==> p == RecordAbsent(own) || p == RecordRevision(own, RevisionOf(t[own])))
  {
    if k :| k in PreconditionKeys(p) && Own(q, k) {
      OwnRowNotLoaded(t, q, k);
      assert PreconditionKeys(p) == {k};
    } else {
      PreconditionIsTrue(t, q, p);
    }
  }

  /** Absence of the request's own lease is accepted although the row stands, and its
      true revision is refused as if the row were missing. */
  lemma OwnLeaseMisjudged(t: Table, q: Request)
    requires WriterLeaseKey(q.fence.scope) in t
    ensures var own := WriterLeaseKey(q.fence.scope);
            var absent, revision := RecordAbsent(own), RecordRevision(own, RevisionOf(t[own]));
            && ConflictOf(absent, t, Loaded(t, q), q).None? && !Meaning(absent, t, q)
            && ConflictOf(revision, t, Loaded(t, q), q) == Some(RecordMissing(own)) && Meaning(revision, t, q)
  {
    OwnRowNotLoaded(t, q, WriterLeaseKey(q.fence.scope));
  }

  /** The reported kind is the precondition's own, with the key and the revisions it compares. */
  predicate Explains(kind: ConflictKind, p: Precondition, loaded: Table)
  {
    match kind
    case RecordPresent(k) => p == RecordAbsent(k) && k in loaded
    case RecordMissing(k) => p.RecordRevision? && p.key == k && k !in loaded
    case RevisionDiffers(k, expected, actual) =>
      p == RecordRevision(k, expected) && k in loaded && actual == RevisionOf(loaded[k]) != expected
    case InodeGenerationDiffers => p.InodeGeneration?
    case DataGenerationDiffers => p.DataGeneration?
    case DirectoryGenerationDiffers => p.DirectoryGenerationIs?
    case ContentBaseDiffers => p.ContentBaseIs?
    case LinkCountDiffers => p.LinkCountIs?
    case OpenPinCountDiffers => p.OpenPinCountIs?
    case PolicyGenerationDiffers => p.PolicyGenerationIs?
    case FenceDiffers => p.ExactFence?
    case _ => false
  }

  /** First failing precondition, by index. */
  method EvaluatePreconditions(t: Table, loaded: Table, q: Request)
    returns (failed: Option<(nat, ConflictKind)>)
    ensures failed.None? <==> forall p | p in q.preconditions :: ConflictOf(p, t, loaded, q).None?
    ensures failed.Some? ==>
      var (i, kind) := failed.value;
      && i < |q.preconditions| && ConflictOf(q.preconditions[i], t, loaded, q) == Some(kind)
      && Explains(kind, q.preconditions[i], loaded)
      && forall j | 0 <= j < i :: ConflictOf(q.preconditions[j], t, loaded, q).None?
  {
    for i := 0 to |q.preconditions|
      invariant forall j | 0 <= j < i :: ConflictOf(q.preconditions[j], t, loaded, q).None?
    {
      var kind := ConflictOf(q.preconditions[i], t, loaded, q);
      if kind.Some? {
        return Some((i, kind.value));
      }
    }
    failed := None;
  }
}
