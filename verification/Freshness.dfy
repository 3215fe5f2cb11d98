/** Optimistic concurrency over whole runs: what a precondition taken from an earlier
    read says about everything that happened since
    (crates/w9pt-fs/src/operations/write.rs:315-340,
    crates/w9pt-fs-state-postgres/src/commit.rs:487-592). */
module Freshness {
  import opened Values
  import opened Records
  import opened Requests
  import opened Loading
  import opened Authority
  import opened Invariants
  import opened Coherence

  /** What a planner states of an inode it has read. */
  function ReadOff(n: Inode): set<Precondition>
  {
    {RecordRevision(InodeKey(n.id), n.revision), InodeGeneration(n.id, n.inodeGeneration),
     LinkCountIs(n.id, n.linkCount)}
    + match n.data
      case RegularData(_, content, g) =>
        {ContentBaseIs(n.id, match content case None => NEW_FILE case Some(c) => Base(c.generation, c.manifestDigest)),
         DataGeneration(n.id, if g > 0 then Some(g) else None)}
      case DirectoryData(g, _) => {DirectoryGenerationIs(n.id, g), DataGeneration(n.id, None)}
      case _ => {DataGeneration(n.id, None)}
  }

  lemma ReadIsTrue(t: Table, i: InodeId, p: Precondition, q: Request)
    requires WellKeyed(t) && InodeAt(t, i).Some? && p in ReadOff(InodeAt(t, i).value)
    ensures Meaning(p, t, q)
    ensures PreconditionKeys(p) == {InodeKey(i)} && forall k :: Watches(p, k) <==> k == InodeKey(i)
  {
    assert Names(t[InodeKey(i)], InodeKey(i));
    var n := InodeAt(t, i).value;
    if p.ContentBaseIs? {
      StartsFromIsBase(n, p.base);
    }
  }

  /** Tables with the same watched rows agree on the precondition. */
  lemma MeaningFrames(a: Table, b: Table, p: Precondition, q: Request)
    requires forall k | Watches(p, k) :: Lookup(a, k) == Lookup(b, k)
    ensures Meaning(p, a, q) ==> Meaning(p, b, q)
  {
    hide StartsFrom, RevisionOf;
    match p
    case RecordAbsent(k) => assert Watches(p, k);
    case RecordRevision(k, _) => assert Watches(p, k);
    case OpenPinCountIs(i, _) =>
      assert forall o :: Watches(p, OpenPinKey(i, o));
      forall k: Key | k.OpenPinKey? && k.inode == i ensures k in a <==> k in b {
        assert Watches(p, k);
      }
      assert (set k | k in a && k.OpenPinKey? && k.inode == i :: k.open)
          == (set k | k in b && k.OpenPinKey? && k.inode == i :: k.open);
    case PolicyGenerationIs(_) => assert Watches(p, FilesystemKey);
    case ExactFence(_) =>
    case _ =>
      assert Watches(p, InodeKey(p.inode));
      assert InodeAt(a, p.inode) == InodeAt(b, p.inode);
  }

  /** A true precondition stays true until an event names a row it looks at. */
  lemma TrueUntilNamed(run: seq<Step>, m: nat, n: nat, p: Precondition, q: Request)
    requires Runs(FRESH, run) && m <= n <= |run| && Meaning(p, At(FRESH, run, m).table, q)
    requires forall k | Watches(p, k) :: Unnamed(run, m, n, k)
    ensures Meaning(p, At(FRESH, run, n).table, q)
  {
    hide Enabled, Next, Unnamed, Meaning, Watches;
    forall k | Watches(p, k) ensures Lookup(At(FRESH, run, m).table, k) == Lookup(At(FRESH, run, n).table, k) {
      CacheExact(run, m, n, k);
    }
    MeaningFrames(At(FRESH, run, m).table, At(FRESH, run, n).table, p, q);
  }

  /** Everything a planner states of the inode it read in state `m` passes in state `n`
      as long as no event in between names that inode. */
  lemma FreshReadPasses(run: seq<Step>, m: nat, n: nat, i: InodeId, p: Precondition, q: Request)
    requires Runs(FRESH, run) && m <= n <= |run| && Unnamed(run, m, n, InodeKey(i)) && p in q.preconditions
    requires InodeAt(At(FRESH, run, m).table, i).Some? && p in ReadOff(InodeAt(At(FRESH, run, m).table, i).value)
    ensures var t := At(FRESH, run, n).table; ConflictOf(p, t, Loaded(t, q), q).None?
  {
    hide Enabled, Next, Inv, Unnamed, Meaning, Watches, ReadOff, ConflictOf;
    RowsWellKeyed(run, m);
    ReadIsTrue(At(FRESH, run, m).table, i, p, q);
    TrueUntilNamed(run, m, n, p, q);
    PreconditionIsTrue(At(FRESH, run, n).table, q, p);
  }

  lemma RowsWellKeyed(run: seq<Step>, n: nat)
    requires Runs(FRESH, run) && n <= |run|
    ensures WellKeyed(At(FRESH, run, n).table)
    ensures RevisionsBounded(At(FRESH, run, n))
  {
    hide Enabled, Next, Accounting.Accounted, LockTable.ConflictFree, ContentHistory.Matched, Applying.ConstraintsHold;
    InvAlways(run, n);
  }

  /** A row named after a state has a later revision than any row that state holds. */
  lemma NamedIsNewer(run: seq<Step>, m: nat, x: nat, n: nat, k: Key)
    requires Runs(FRESH, run) && m <= x < n <= |run| && k in Named(At(FRESH, run, x), run[x])
    requires k in At(FRESH, run, n).table
    ensures RevisionOf(At(FRESH, run, n).table[k]) > At(FRESH, run, m).current
  {
    hide Enabled, Next, Inv, Named, RevisionOf;
    var last := RevisionIsLatestEvent(run, n, k);
    assert last >= x;
    RevisionGrows(run, m, last);
  }

  /** The stated revision of a row read in state `m` holds in state `n` exactly when no
      event in between names the row. */
  lemma RevisionHoldsIffUnnamed(run: seq<Step>, m: nat, n: nat, k: Key, q: Request)
    requires Runs(FRESH, run) && m <= n <= |run| && k in At(FRESH, run, m).table
    ensures Meaning(RecordRevision(k, RevisionOf(At(FRESH, run, m).table[k])), At(FRESH, run, n).table, q)
            <==> Unnamed(run, m, n, k)
  {
    hide Enabled, Next, Inv, RevisionOf;
    RowsWellKeyed(run, m);
    if Unnamed(run, m, n, k) {
      CacheExact(run, m, n, k);
    } else {
      var x :| m <= x < n && k in Named(At(FRESH, run, x), run[x]);
      if k in At(FRESH, run, n).table {
        NamedIsNewer(run, m, x, n, k);
      }
    }
  }
}
