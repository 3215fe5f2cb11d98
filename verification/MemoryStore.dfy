/** The in-memory reference store (crates/w9pt-fs-state/src/testing/memory.rs:440-529,
    1148-1920): it checks preconditions and transitions on the whole table, applies
    each change to the staged rows, refuses a lock insert that conflicts with a staged
    lock, and validates the whole image. The theorems say exactly when it and the
    database store accept the same request. */
module MemoryStore {
  import opened Values
  import opened Records
  import opened Requests
  import opened Applying
  import opened Effects
  import opened Loading
  import opened Transitions
  import opened LockTable
  import opened Targeting
  import opened Admission
  import opened ContentHistory
  import opened RowEffects
  import opened WholeImage

  // --------------------------------------------------------------- the store

  /** `evaluate_preconditions`, on all rows. */
  ghost predicate PreconditionsTrue(t: Table, q: Request)
  {
    forall p | p in q.preconditions :: ConflictOf(p, t, t, q).None?
  }

  /** A replacement keeps the content context. */
  predicate KeepsContext(t: Table, c: Change)
  {
    c.Replace? && c.key in t && t[c.key].InodeRecord? && c.record.InodeRecord?
    ==> t[c.key].node.context == c.record.node.context
  }

  /** The transition validators, on all rows. */
  ghost predicate WholeTransitionsOk(t: Table, changes: seq<Change>)
  {
    && TransitionsOk(t, changes)
    && (FilesystemKey in t ==> forall c | c in changes :: KeepsContext(t, c))
  }

  /** No staged lock conflicts with an inserted one. */
  predicate LockFree(cur: Table, c: Change)
  {
    c.Insert? && c.record.LockRecord? ==>
      forall j | j in cur && j.LockKey? && cur[j].LockRecord? :: !Conflicts(c.record.lock, cur[j].lock)
  }

  predicate PublicationStaged(cur: Table, p: Publication, q: Request)
  {
    InodeAt(cur, p.inode).Some? && ContentFile(InodeAt(cur, p.inode).value).Some? &&
    var n := InodeAt(cur, p.inode).value;
    var k := ContentMetadataKey(ContentFile(n).value);
    k in cur && cur[k].ContentMetadataRecord? && PublicationError(p, q.mutation, n, cur[k].metadata).None?
  }

  predicate RewrapStaged(cur: Table, r: Rewrap)
  {
    var k := ContentMetadataKey(r.file);
    k in cur && cur[k].ContentMetadataRecord? &&
    var m := cur[k].metadata;
    m.revision == r.expectedRevision && m.context == r.expectedContext
    && m.keyCommitment.Some? && m.wrappedKey.Some? && r.wrappedKey != []
  }

  predicate StagingStaged(cur: Table, s: StagingId, i: InodeId, n: Bytes)
  {
    var k := XattrStagingKey(s);
    k in cur && cur[k].XattrStagingRecord? && cur[k].staging.inode == i && cur[k].staging.name == n
    && |cur[k].staging.bytes| == cur[k].staging.expectedSize
  }

  /** `apply_change` does not fail on the staged rows. */
  predicate Stages(cur: Table, c: Change, q: Request)
  {
    match c
    case Insert(k, _) => k !in cur && LockFree(cur, c)
    case Replace(k, r) =>
      k in cur && (cur[k].InodeRecord? && r.InodeRecord? ==>
        Content(cur[k].node) == Content(r.node) && ContentFile(cur[k].node) == ContentFile(r.node))
    case Delete(k) => k in cur
    case MoveEntry(_, _, e) =>
      SourceKey(c) in cur && cur[SourceKey(c)].EntryRecord? && SameLink(cur[SourceKey(c)].entry, e)
    case RetainResult => true
    case AdvanceCookie(n) => HeaderAt(cur).Some? && CheckedAdd(HeaderAt(cur).value.nextCookie, n).Some?
    case AdvanceQidPath(n) => HeaderAt(cur).Some? && CheckedAdd(HeaderAt(cur).value.nextQidPath, n).Some?
    case BumpPolicyGeneration =>
      HeaderAt(cur).Some? && CheckedNext(HeaderAt(cur).value.policyGeneration).Some?
    case BumpInodeGeneration(i) =>
      InodeAt(cur, i).Some? && CheckedNext(InodeAt(cur, i).value.inodeGeneration).Some?
    case BumpDirectoryGeneration(i) =>
      IsDirectory(cur, i) && CheckedNext(InodeAt(cur, i).value.data.generation).Some?
      && CheckedNext(InodeAt(cur, i).value.inodeGeneration).Some?
    case AdjustLinkCount(i, a) =>
      InodeAt(cur, i).Some? && Adjust(a, InodeAt(cur, i).value.linkCount).Some?
      && CheckedNext(InodeAt(cur, i).value.inodeGeneration).Some?
    case AdjustOpenPinCount(i, a) =>
      OrphanKey(i) in cur && cur[OrphanKey(i)].OrphanRecord?
      && Adjust(a, cur[OrphanKey(i)].orphan.pinCount).Some?
      && Adjust(a, cur[OrphanKey(i)].orphan.pinCount).value != 0
    case BumpLockGeneration(i, l) =>
      LockKey(i, l) in cur && cur[LockKey(i, l)].LockRecord?
      && CheckedNext(cur[LockKey(i, l)].lock.generation).Some?
    case PublishContent(p) => PublicationStaged(cur, p, q)
    case RewrapContentMetadata(r) => RewrapStaged(cur, r)
    case PublishXattrStaging(s, i, n) => StagingStaged(cur, s, i, n)
  }

  /** The rows after one change: everything is computed from the staged rows. */
  function StageChange(cur: Table, c: Change, q: Request, revision: Revision): Option<Table>
  {
    if Stages(cur, c, q) then Some(Overlay(cur, Writes(cur, cur, c, revision))) else None
  }

  function StageAll(t: Table, changes: seq<Change>, q: Request, revision: Revision): Option<Table>
  {
    if changes == [] then Some(t)
    else
      var staged := StageAll(t, changes[..|changes| - 1], q, revision);
      if staged.None? then None else StageChange(staged.value, changes[|changes| - 1], q, revision)
  }

  /** What the in-memory store accepts, and the rows it leaves. */
  ghost predicate MemoryAccepts(t: Table, q: Request, revision: Revision, depth: nat, t': Table)
  {
    && PreflightOk(q) && PreconditionsTrue(t, q) && WholeTransitionsOk(t, q.changes)
    && StageAll(t, q.changes, q, revision) == Some(t')
    && ImageOk(t', depth)
  }

  method StageChanges(t: Table, q: Request, revision: Revision) returns (staged: Option<Table>)
    ensures staged == StageAll(t, q.changes, q, revision)
  {
    hide StageChange;
    var cur := t;
    for i := 0 to |q.changes|
      invariant StageAll(t, q.changes[..i], q, revision) == Some(cur)
    {
      StagedAtEnd(t, q.changes, q, revision, i);
      var next := StageChange(cur, q.changes[i], q, revision);
      if next.None? {
        NeverStaged(t, q.changes, q, revision, i + 1, |q.changes|);
        assert q.changes[..|q.changes|] == q.changes;
        return None;
      }
      cur := next.value;
    }
    assert q.changes[..|q.changes|] == q.changes;
    return Some(cur);
  }

  lemma {:induction false} NeverStaged(t: Table, all: seq<Change>, q: Request, revision: Revision, m: nat, n: nat)
    requires m <= n <= |all| && StageAll(t, all[..m], q, revision).None?
    ensures StageAll(t, all[..n], q, revision).None?
    decreases n
  {
    hide StageAll;
    if m < n {
      NeverStaged(t, all, q, revision, m, n - 1);
      StagedAtEnd(t, all, q, revision, n - 1);
    }
  }

  /** The commit of the in-memory store between its fence check and its ledger insert. */
  method CommitInMemory(t: Table, q: Request, revision: Revision, depth: nat, maxKeys: nat)
    returns (r: Option<Table>)
    ensures r.Some? ==> KeysWithin(q, maxKeys) && MemoryAccepts(t, q, revision, depth, r.value)
    ensures r.None? ==> !KeysWithin(q, maxKeys) || forall t' :: !MemoryAccepts(t, q, revision, depth, t')
  {
    hide PreflightOk, TransitionsOk, StageAll, ImageOk, ConflictOf, KeepsContext;
    var malformed := ValidatePreflight(q, maxKeys);
    if malformed.Some? {
      return None;
    }
    var failed := EvaluatePreconditions(t, t, q);
    if failed.Some? {
      return None;
    }
    malformed := ValidateTransitions(t, q.changes);
    if malformed.Some? {
      return None;
    }
    if FilesystemKey in t {
      for i := 0 to |q.changes|
        invariant forall x | 0 <= x < i :: KeepsContext(t, q.changes[x])
      {
        if !KeepsContext(t, q.changes[i]) {
          return None;
        }
      }
    }
    var staged := StageChanges(t, q, revision);
    if staged.None? {
      return None;
    }
    var valid := ValidateImage(staged.value, depth);
    return if valid then staged else None;
  }

  // --------------------------------------------------------------- one change

  /** The rows a change writes are the same staged, loaded and before the request. */
  ghost predicate Same(cur: Table, loaded: Table, c: Change)
  {
    forall k | Touches(c, k) :: Lookup(cur, k) == Lookup(loaded, k)
  }

  lemma TouchedSame(t: Table, loaded: Table, done: seq<Change>, c: Change, cur: Table, revision: Revision)
    requires StepFacts(t, loaded, done, c, cur, revision) && !Allocates(c)
    ensures Same(cur, loaded, c) && Same(cur, t, c)
  {
    hide StepFacts;
    forall k | Touches(c, k) ensures Lookup(cur, k) == Lookup(t, k) && Lookup(loaded, k) == Lookup(t, k) {
      StillOriginal(t, loaded, done, c, cur, revision, k);
    }
  }

  /** An allocator finds its own counter as it was loaded. */
  lemma AllocatorSame(t: Table, loaded: Table, done: seq<Change>, c: Change, cur: Table, revision: Revision)
    requires StepFacts(t, loaded, done, c, cur, revision) && Allocates(c)
    ensures HeaderAt(cur).Some? <==> HeaderAt(loaded).Some?
    ensures HeaderAt(cur).Some? ==>
      if c.AdvanceCookie? then HeaderAt(cur).value.nextCookie == HeaderAt(loaded).value.nextCookie
      else HeaderAt(cur).value.nextQidPath == HeaderAt(loaded).value.nextQidPath
  {
    CounterUnused(t, loaded, done, c, cur, revision);
    if d :| d in done && Allocates(d) {
      assert HeaderAdvanced(t, done, revision, cur);
    }
  }

  /** Staging an allocation is applying it. */
  lemma AllocationStaged(cur: Table, loaded: Table, c: Change, q: Request, revision: Revision)
    requires WellKeyed(cur) && WellKeyed(loaded) && Allocates(c)
    requires HeaderAt(cur).Some? <==> HeaderAt(loaded).Some?
    requires HeaderAt(cur).Some? ==>
      if c.AdvanceCookie? then HeaderAt(cur).value.nextCookie == HeaderAt(loaded).value.nextCookie
      else HeaderAt(cur).value.nextQidPath == HeaderAt(loaded).value.nextQidPath
    ensures Stages(cur, c, q) <==> ChangeRefusal(cur, loaded, c, q).None?
    ensures Writes(cur, cur, c, revision) == Writes(cur, loaded, c, revision)
  {
    assert FilesystemKey in cur ==> Names(cur[FilesystemKey], FilesystemKey);
  }

  lemma WritesSame(cur: Table, loaded: Table, c: Change, revision: Revision)
    requires !Allocates(c) && Same(cur, loaded, c)
    ensures Writes(cur, cur, c, revision) == Writes(cur, loaded, c, revision)
  {
    WritesLocal(cur, cur, loaded, c, revision);
  }

  /** Staged and loaded rows are refused alike, up to the lock and staging checks that
      the database makes elsewhere and the metadata a publication is checked against. */
  lemma RecordStaged(cur: Table, loaded: Table, c: Change, q: Request)
    requires (c.Insert? || c.Replace? || c.Delete?) && Same(cur, loaded, c) && KeepsContext(cur, c)
    ensures Stages(cur, c, q) <==> ChangeRefusal(cur, loaded, c, q).None? && LockFree(cur, c)
  {
    assert Touches(c, c.key);
  }

  lemma MoveStaged(cur: Table, loaded: Table, c: Change, q: Request)
    requires c.MoveEntry? && SourceKey(c) != DestinationKey(c) && Same(cur, loaded, c)
    ensures Stages(cur, c, q) <==> ChangeRefusal(cur, loaded, c, q).None?
  {
    assert Touches(c, SourceKey(c)) && Touches(c, DestinationKey(c));
  }

  lemma CounterStaged(cur: Table, loaded: Table, c: Change, q: Request)
    requires c.BumpPolicyGeneration? || c.AdjustOpenPinCount? || c.BumpLockGeneration?
    requires WellKeyed(cur) && Same(cur, loaded, c)
    ensures Stages(cur, c, q) <==> ChangeRefusal(cur, loaded, c, q).None?
  {
    var k := PrimaryKey(c);
    assert Touches(c, k) && (k in cur ==> Names(cur[k], k));
  }

  lemma InodeStaged(cur: Table, loaded: Table, c: Change, q: Request)
    requires c.BumpInodeGeneration? || c.BumpDirectoryGeneration? || c.AdjustLinkCount?
    requires WellKeyed(cur) && Same(cur, loaded, c)
    ensures Stages(cur, c, q) <==> ChangeRefusal(cur, loaded, c, q).None?
  {
    var k := PrimaryKey(c);
    assert Touches(c, k) && (k in cur ==> Names(cur[k], k));
  }

  lemma PublicationIsStaged(cur: Table, loaded: Table, c: Change, q: Request)
    requires c.PublishContent? && WellKeyed(cur) && Same(cur, loaded, c)
    ensures Stages(cur, c, q) <==>
      && ChangeRefusal(cur, loaded, c, q).None?
      && InodeAt(cur, c.publication.inode).Some?
      && ContentFile(InodeAt(cur, c.publication.inode).value) == Some(c.publication.prepared.binding.file)
  {
    var k := InodeKey(c.publication.inode);
    assert Touches(c, k) && (k in cur ==> Names(cur[k], k));
    if InodeAt(cur, c.publication.inode).Some? && ContentFile(InodeAt(cur, c.publication.inode).value).Some? {
      var m := ContentMetadataKey(ContentFile(InodeAt(cur, c.publication.inode).value).value);
      assert m in cur ==> Names(cur[m], m);
    }
  }

  lemma MetadataStaged(cur: Table, loaded: Table, c: Change, q: Request)
    requires c.RewrapContentMetadata? || c.PublishXattrStaging?
    requires WellKeyed(cur) && Same(cur, loaded, c)
    ensures Stages(cur, c, q) <==>
      && ChangeRefusal(cur, loaded, c, q).None?
      && (c.PublishXattrStaging? ==> StagingStaged(cur, c.staging, c.inode, c.name))
  {
    assert Touches(c, PrimaryKey(c));
    if c.PublishXattrStaging? {
      assert Touches(c, XattrKey(c.inode, c.name));
    }
  }

  /** What the in-memory store asks of one change beyond the database's own refusals. */
  predicate Extra(cur: Table, c: Change)
  {
    && LockFree(cur, c)
    && (c.PublishContent? ==>
          InodeAt(cur, c.publication.inode).Some?
          && ContentFile(InodeAt(cur, c.publication.inode).value) == Some(c.publication.prepared.binding.file))
    && (c.PublishXattrStaging? ==> StagingStaged(cur, c.staging, c.inode, c.name))
  }

  lemma StagedIff(t: Table, loaded: Table, done: seq<Change>, c: Change, cur: Table, q: Request, revision: Revision)
    requires StepFacts(t, loaded, done, c, cur, revision) && WellKeyed(loaded) && KeepsContext(t, c)
    ensures Stages(cur, c, q) <==> ChangeRefusal(cur, loaded, c, q).None? && Extra(cur, c)
    ensures Writes(cur, cur, c, revision) == Writes(cur, loaded, c, revision)
  {
    assert WellKeyed(cur) && DistinctTargets(done + [c]);
    hide StepFacts, Stages, ChangeRefusal, Writes, WellKeyed;
    if Allocates(c) {
      AllocatorSame(t, loaded, done, c, cur, revision);
      AllocationStaged(cur, loaded, c, q, revision);
    } else {
      TouchedSame(t, loaded, done, c, cur, revision);
      WritesSame(cur, loaded, c, revision);
      if c.Insert? || c.Replace? || c.Delete? {
        ContextSame(cur, t, c);
        RecordStaged(cur, loaded, c, q);
      } else if c.MoveEntry? {
        assert c in done + [c];
        MoveHasTwoKeys(done + [c], c);
        MoveStaged(cur, loaded, c, q);
      } else if c.BumpPolicyGeneration? || c.AdjustOpenPinCount? || c.BumpLockGeneration? {
        CounterStaged(cur, loaded, c, q);
      } else if c.BumpInodeGeneration? || c.BumpDirectoryGeneration? || c.AdjustLinkCount? {
        InodeStaged(cur, loaded, c, q);
      } else if c.PublishContent? {
        PublicationIsStaged(cur, loaded, c, q);
      } else if c.RewrapContentMetadata? || c.PublishXattrStaging? {
        MetadataStaged(cur, loaded, c, q);
      } else {
        ResultStaged(cur, loaded, c, q);
      }
    }
  }

  lemma ContextSame(cur: Table, t: Table, c: Change)
    requires Same(cur, t, c) && KeepsContext(t, c)
    ensures KeepsContext(cur, c)
  {
    if c.Replace? {
      assert Touches(c, c.key);
    }
  }

  lemma ResultStaged(cur: Table, loaded: Table, c: Change, q: Request)
    requires c.RetainResult?
    ensures Stages(cur, c, q) && ChangeRefusal(cur, loaded, c, q).None?
  {
  }

  // ------------------------------------------------------------- whole lists

  ghost predicate Comparable(t: Table, loaded: Table, all: seq<Change>, q: Request)
  {
    && WellKeyed(t) && WellKeyed(loaded) && DistinctTargets(all) && WellShaped(all, q.mutation)
    && LoadedFrom(t, loaded, all) && forall c | c in all :: KeepsContext(t, c)
  }

  /** The change at `n` finds what every change finds. */
  lemma FactsAt(t: Table, loaded: Table, all: seq<Change>, q: Request, revision: Revision, n: nat, cur: Table)
    requires Comparable(t, loaded, all, q) && n < |all|
    requires ApplyAll(t, loaded, all[..n], q, revision) == Done(cur)
    ensures StepFacts(t, loaded, all[..n], all[n], cur, revision) && WellKeyed(loaded) && KeepsContext(t, all[n])
  {
    hide ApplyAll, KeepsContext, WellKeyed;
    assert all[..n] + [all[n]] == all[..n + 1];
    DistinctPrefix(all, n);
    DistinctPrefix(all, n + 1);
    hide DistinctTargets;
    AppliedIsWritten(t, loaded, all[..n], q, revision);
  }

  lemma StagedAtEnd(t: Table, all: seq<Change>, q: Request, revision: Revision, n: nat)
    requires n < |all|
    ensures StageAll(t, all[..n + 1], q, revision) ==
            var staged := StageAll(t, all[..n], q, revision);
            if staged.None? then None else StageChange(staged.value, all[n], q, revision)
  {
    hide StageChange;
    assert all[..n + 1][..n] == all[..n];
  }

  lemma AppliedAtEnd(t: Table, loaded: Table, all: seq<Change>, q: Request, revision: Revision, n: nat)
    requires n < |all|
    ensures ApplyAll(t, loaded, all[..n + 1], q, revision) ==
            match ApplyAll(t, loaded, all[..n], q, revision)
            case Done(cur) => ApplyChange(cur, loaded, all[n], q, revision)
            case Refused(why) => Refused(why)
  {
    hide ApplyChange;
    assert all[..n + 1][..n] == all[..n];
  }

  lemma NothingApplied(t: Table, loaded: Table, all: seq<Change>, q: Request, revision: Revision)
    ensures StageAll(t, all[..0], q, revision) == Some(t) && ApplyAll(t, loaded, all[..0], q, revision) == Done(t)
  {
  }

  /** One more change: both stores go on alike where nothing holds either back. */
  lemma StepAlike(t: Table, loaded: Table, all: seq<Change>, q: Request, revision: Revision, n: nat, cur: Table)
    requires Comparable(t, loaded, all, q) && n < |all|
    requires StageAll(t, all[..n], q, revision) == Some(cur)
    requires ApplyAll(t, loaded, all[..n], q, revision) == Done(cur)
    ensures var w := Writes(cur, cur, all[n], revision);
            var staged := StageAll(t, all[..n + 1], q, revision);
            var applied := ApplyAll(t, loaded, all[..n + 1], q, revision);
            && (staged.Some? ==> (applied.Done? <==> !WriteViolates(cur, w)))
            && (applied.Done? ==> (staged.Some? <==> Extra(cur, all[n])))
            && (staged.Some? ==> Extra(cur, all[n])) && (applied.Done? ==> !WriteViolates(cur, w))
            && (staged.Some? && applied.Done? ==> applied.table == staged.value)
  {
    FactsAt(t, loaded, all, q, revision, n, cur);
    StagedIff(t, loaded, all[..n], all[n], cur, q, revision);
    StagedAtEnd(t, all, q, revision, n);
    AppliedAtEnd(t, loaded, all, q, revision, n);
    hide Comparable, StepFacts, Stages, ChangeRefusal, Writes, WriteViolates, Extra, StageAll, ApplyAll, KeepsContext;
  }

  /** At its turn a change violates no immediate constraint of the database. */
  ghost predicate CleanAt(t: Table, all: seq<Change>, q: Request, revision: Revision, n: nat)
    requires n < |all|
  {
    var staged := StageAll(t, all[..n], q, revision);
    staged.Some? ==> !WriteViolates(staged.value, Writes(staged.value, staged.value, all[n], revision))
  }

  ghost predicate Clean(t: Table, all: seq<Change>, q: Request, revision: Revision)
  {
    forall n: nat | n < |all| :: CleanAt(t, all, q, revision, n)
  }

  /** At its turn a change meets what the in-memory store asks beyond. */
  ghost predicate ExtraAt(t: Table, loaded: Table, all: seq<Change>, q: Request, revision: Revision, n: nat)
    requires n < |all|
  {
    var applied := ApplyAll(t, loaded, all[..n], q, revision);
    applied.Done? ==> Extra(applied.table, all[n])
  }

  lemma {:induction false} StagedPrefix(t: Table, all: seq<Change>, q: Request, revision: Revision, m: nat, n: nat)
    requires m <= n <= |all| && StageAll(t, all[..n], q, revision).Some?
    ensures StageAll(t, all[..m], q, revision).Some?
    decreases n
  {
    hide StageAll;
    if m < n {
      StagedAtEnd(t, all, q, revision, n - 1);
      StagedPrefix(t, all, q, revision, m, n - 1);
    }
  }

  lemma {:induction false} AppliedPrefix(t: Table, loaded: Table, all: seq<Change>, q: Request, revision: Revision,
                                         m: nat, n: nat)
    requires m <= n <= |all| && ApplyAll(t, loaded, all[..n], q, revision).Done?
    ensures ApplyAll(t, loaded, all[..m], q, revision).Done?
    decreases n
  {
    hide ApplyAll;
    if m < n {
      AppliedAtEnd(t, loaded, all, q, revision, n - 1);
      AppliedPrefix(t, loaded, all, q, revision, m, n - 1);
    }
  }

  /** Where both stores succeed they have the same rows at every turn. */
  lemma {:induction false} SameAtEveryTurn(t: Table, loaded: Table, all: seq<Change>, q: Request, revision: Revision,
                                           n: nat)
    requires Comparable(t, loaded, all, q) && n <= |all|
    requires StageAll(t, all[..n], q, revision).Some? && ApplyAll(t, loaded, all[..n], q, revision).Done?
    ensures ApplyAll(t, loaded, all[..n], q, revision) == Done(StageAll(t, all[..n], q, revision).value)
    decreases n
  {
    hide Comparable, StageAll, ApplyAll, Extra;
    if n == 0 {
      NothingApplied(t, loaded, all, q, revision);
    } else {
      StagedPrefix(t, all, q, revision, n - 1, n);
      AppliedPrefix(t, loaded, all, q, revision, n - 1, n);
      SameAtEveryTurn(t, loaded, all, q, revision, n - 1);
      StepAlike(t, loaded, all, q, revision, n - 1, StageAll(t, all[..n - 1], q, revision).value);
    }
  }

  /** The database follows the staged rows as long as its constraints let it. */
  lemma {:induction false} DatabaseFollows(t: Table, loaded: Table, all: seq<Change>, q: Request, revision: Revision,
                                           n: nat)
    requires Comparable(t, loaded, all, q) && n <= |all| && Clean(t, all, q, revision)
    requires StageAll(t, all[..n], q, revision).Some?
    ensures ApplyAll(t, loaded, all[..n], q, revision) == Done(StageAll(t, all[..n], q, revision).value)
    decreases n
  {
    hide Comparable, StageAll, ApplyAll, Extra;
    if n == 0 {
      NothingApplied(t, loaded, all, q, revision);
    } else {
      StagedPrefix(t, all, q, revision, n - 1, n);
      DatabaseFollows(t, loaded, all, q, revision, n - 1);
      StepAlike(t, loaded, all, q, revision, n - 1, StageAll(t, all[..n - 1], q, revision).value);
      assert CleanAt(t, all, q, revision, n - 1);
    }
  }

  /** The staged rows follow the database as long as the extra checks let them. */
  lemma {:induction false} MemoryFollows(t: Table, loaded: Table, all: seq<Change>, q: Request, revision: Revision,
                                         n: nat)
    requires Comparable(t, loaded, all, q) && n <= |all|
    requires forall m: nat | m < |all| :: ExtraAt(t, loaded, all, q, revision, m)
    requires ApplyAll(t, loaded, all[..n], q, revision).Done?
    ensures StageAll(t, all[..n], q, revision) == Some(ApplyAll(t, loaded, all[..n], q, revision).table)
    decreases n
  {
    hide Comparable, StageAll, ApplyAll, Extra;
    if n == 0 {
      NothingApplied(t, loaded, all, q, revision);
    } else {
      AppliedPrefix(t, loaded, all, q, revision, n - 1, n);
      MemoryFollows(t, loaded, all, q, revision, n - 1);
      StepAlike(t, loaded, all, q, revision, n - 1, ApplyAll(t, loaded, all[..n - 1], q, revision).table);
      assert ExtraAt(t, loaded, all, q, revision, n - 1);
    }
  }

  /** Where both stores succeed every change was clean and met the extra checks. */
  lemma BothAt(t: Table, loaded: Table, all: seq<Change>, q: Request, revision: Revision, n: nat)
    requires Comparable(t, loaded, all, q) && n < |all|
    requires StageAll(t, all, q, revision).Some? && ApplyAll(t, loaded, all, q, revision).Done?
    ensures CleanAt(t, all, q, revision, n)
    ensures ApplyAll(t, loaded, all[..n], q, revision).Done?
    ensures Extra(ApplyAll(t, loaded, all[..n], q, revision).table, all[n])
  {
    hide Comparable, StageAll, ApplyAll, Extra;
    assert all[..|all|] == all;
    StagedPrefix(t, all, q, revision, n, |all|);
    StagedPrefix(t, all, q, revision, n + 1, |all|);
    AppliedPrefix(t, loaded, all, q, revision, n, |all|);
    AppliedPrefix(t, loaded, all, q, revision, n + 1, |all|);
    SameAtEveryTurn(t, loaded, all, q, revision, n);
    StepAlike(t, loaded, all, q, revision, n, StageAll(t, all[..n], q, revision).value);
  }

  // ------------------------------------------------- constraints at their turn

  lemma StagedFacts(t: Table, loaded: Table, all: seq<Change>, q: Request, revision: Revision, n: nat, cur: Table)
    requires Comparable(t, loaded, all, q) && n < |all|
    requires Written(t, all[..n], revision, cur) && WellKeyed(cur)
    ensures StepFacts(t, loaded, all[..n], all[n], cur, revision) && KeepsContext(t, all[n])
  {
    hide KeepsContext, WellKeyed, Written;
    assert all[..n] + [all[n]] == all[..n + 1];
    DistinctPrefix(all, n + 1);
  }

  /** The staged rows have, at every key, the effect of the change declaring it. */
  lemma {:induction false} StagedIsWritten(t: Table, loaded: Table, all: seq<Change>, q: Request, revision: Revision,
                                           n: nat)
    requires Comparable(t, loaded, all, q) && n <= |all| && StageAll(t, all[..n], q, revision).Some?
    ensures Written(t, all[..n], revision, StageAll(t, all[..n], q, revision).value)
    ensures WellKeyed(StageAll(t, all[..n], q, revision).value)
    decreases n
  {
    hide StageAll;
    if n == 0 {
      assert WellKeyed(t);
      NothingApplied(t, loaded, all, q, revision);
    } else {
      var m, c := n - 1, all[n - 1];
      StagedAtEnd(t, all, q, revision, m);
      StagedIsWritten(t, loaded, all, q, revision, m);
      var cur := StageAll(t, all[..m], q, revision).value;
      StagedFacts(t, loaded, all, q, revision, m, cur);
      assert WellKeyed(loaded) && ShapeError(c, q.mutation).None?;
      hide Comparable, Stages, Written, WellKeyed, StepFacts, ChangeRefusal, Writes, ShapeError, KeepsContext;
      StagedIff(t, loaded, all[..m], c, cur, q, revision);
      StepWritten(t, loaded, all[..m], c, cur, q, revision);
      ApplyKeepsKeys(cur, loaded, c, q, revision);
      assert all[..m] + [c] == all[..n];
    }
  }

  ghost predicate SchemaHolds(t: Table)
  {
    forall k | k in t :: SchemaAllows(t[k])
  }

  /** No change writes a row that shares a unique column with a stored row which a
      later change takes away or rewrites. */
  ghost predicate TakenInOrder(t: Table, changes: seq<Change>, revision: Revision)
  {
    forall x, y, k, j | 0 <= x < y < |changes| && Touches(changes[x], k) && Touches(changes[y], j)
      :: RowAllows(t, changes[x], k, j, revision)
  }

  predicate RowAllows(t: Table, c: Change, k: Key, j: Key, revision: Revision)
  {
    var now := Value(Writes(t, t, c, revision), k);
    k != j && j in t && now.Some? ==> !SameUnique(t[j], now.value)
  }

  /** What one turn needs to know about the whole request. */
  ghost predicate Turn(t: Table, all: seq<Change>, revision: Revision, n: nat, cur: Table, t': Table)
  {
    && n < |all| && DistinctTargets(all) && WellKeyed(t) && WellKeyed(cur) && WellKeyed(t')
    && Written(t, all[..n], revision, cur) && Written(t, all, revision, t')
  }

  /** A row that no change from `n` on declares is final. */
  lemma FinalRow(t: Table, all: seq<Change>, revision: Revision, n: nat, cur: Table, t': Table, j: Key)
    requires Turn(t, all, revision, n, cur, t') && j != FilesystemKey
    requires forall y | n <= y < |all| :: !Touches(all[y], j)
    ensures Lookup(cur, j) == Lookup(t', j)
  {
    hide Writes, DistinctTargets, WellKeyed, HeaderAdvanced;
    if x :| 0 <= x < |all| && Touches(all[x], j) {
      var c := all[x];
      assert all[..n][x] == c;
      assert c in all[..n] && c in all;
      AllocatesHeader(c, j);
      assert Lookup(cur, j) == Value(Writes(t, t, c, revision), j);
    } else {
      UntouchedAll(all, n, j);
    }
  }

  lemma AllocatesHeader(c: Change, j: Key)
    requires Touches(c, j) && j != FilesystemKey
    ensures !Allocates(c)
  {
  }

  lemma UntouchedAll(all: seq<Change>, n: nat, j: Key)
    requires n <= |all| && forall x | 0 <= x < |all| :: !Touches(all[x], j)
    ensures !Touched(all, j) && !Touched(all[..n], j)
  {
    hide Touches;
  }

  /** A row that a change from `n` on declares is still the stored one. */
  lemma StoredRow(t: Table, all: seq<Change>, revision: Revision, n: nat, cur: Table, t': Table, y: nat, j: Key)
    requires Turn(t, all, revision, n, cur, t') && j != FilesystemKey && n <= y < |all| && Touches(all[y], j)
    ensures Lookup(cur, j) == Lookup(t, j)
  {
    forall d | d in all[..n] ensures !Touches(d, j) {
      var x :| 0 <= x < n && all[x] == d;
    }
    assert !Touched(all[..n], j);
  }

  lemma HeaderSharesNothing(t: Table, j: Key, r: Record)
    requires WellKeyed(t) && j in t && j == FilesystemKey
    ensures !SameUnique(t[j], r) && !SameUnique(r, t[j])
  {
    assert Names(t[j], j);
  }

  /** At most one row is written. */
  lemma WritesOne(t: Table, c: Change, revision: Revision, j: Key, k: Key)
    requires j in Writes(t, t, c, revision).written && k in Writes(t, t, c, revision).written
    ensures j == k
  {
  }

  /** In order, the row a change writes clashes with no row it finds. */
  lemma NoClashAtTurn(t: Table, all: seq<Change>, revision: Revision, n: nat, cur: Table, t': Table, k: Key, j: Key)
    requires Turn(t, all, revision, n, cur, t') && Unique(t') && TakenInOrder(t, all, revision) && !Allocates(all[n])
    requires var w := Writes(t, t, all[n], revision);
             && k in w.written && (forall i :: (i in w.written || i in w.removed) <==> Touches(all[n], i))
             && j in cur && j !in w.removed && j != k
    ensures !SameUnique(cur[j], Writes(t, t, all[n], revision).written[k])
  {
    hide Writes, SameUnique, DistinctTargets, Written, WellKeyed;
    var r := Writes(t, t, all[n], revision).written[k];
    if j == FilesystemKey {
      TurnKeys(t, all, revision, n, cur, t');
      HeaderSharesNothing(cur, j, r);
    } else if y :| n < y < |all| && Touches(all[y], j) {
      StoredRow(t, all, revision, n, cur, t', y, j);
      assert RowAllows(t, all[n], k, j, revision);
    } else {
      if Touches(all[n], j) {
        WritesOne(t, all[n], revision, j, k);
      }
      FinalRow(t, all, revision, n, cur, t', j);
      WrittenRowFinal(t, all, revision, n, cur, t', k);
    }
  }

  lemma TurnKeys(t: Table, all: seq<Change>, revision: Revision, n: nat, cur: Table, t': Table)
    requires Turn(t, all, revision, n, cur, t')
    ensures WellKeyed(cur)
  {
  }

  lemma WrittenRowFinal(t: Table, all: seq<Change>, revision: Revision, n: nat, cur: Table, t': Table, k: Key)
    requires Turn(t, all, revision, n, cur, t') && !Allocates(all[n])
    requires k in Writes(t, t, all[n], revision).written && Touches(all[n], k)
    ensures k in t' && t'[k] == Writes(t, t, all[n], revision).written[k]
  {
    hide Writes;
    assert all[n] in all;
    assert Lookup(t', k) == Value(Writes(t, t, all[n], revision), k);
  }

  /** An ordinary change is clean at its turn when the request is in order. */
  lemma OrdinaryIsClean(t: Table, all: seq<Change>, revision: Revision, n: nat, cur: Table, t': Table, w: Write)
    requires Turn(t, all, revision, n, cur, t') && Unique(t') && TakenInOrder(t, all, revision) && SchemaHolds(t')
    requires !Allocates(all[n]) && w == Writes(t, t, all[n], revision)
    requires forall i :: (i in w.written || i in w.removed) <==> Touches(all[n], i)
    ensures !WriteViolates(cur, w)
  {
    hide Writes, SameUnique, Turn, TakenInOrder, Unique, SchemaAllows;
    forall k | k in w.written ensures !Violates(cur - w.removed, k, w.written[k]) {
      WrittenRowFinal(t, all, revision, n, cur, t', k);
      forall j | j in cur - w.removed && j != k ensures !SameUnique((cur - w.removed)[j], w.written[k]) {
        NoClashAtTurn(t, all, revision, n, cur, t', k, j);
      }
    }
  }

  /** The header after some of the allocations is allowed when it is before and after all. */
  lemma HeaderBetween(t: Table, all: seq<Change>, revision: Revision, n: nat, cur: Table, t': Table)
    requires n < |all| && Allocates(all[n])
    requires Written(t, all[..n + 1], revision, cur) && Written(t, all, revision, t')
    requires SchemaHolds(t) && SchemaHolds(t')
    ensures HeaderAt(cur).Some? && SchemaAllows(FilesystemRecord(HeaderAt(cur).value))
  {
    var some := all[..n + 1];
    assert some[n] == all[n] && all[n] in some && all[n] in all;
    assert HeaderAdvanced(t, some, revision, cur) && HeaderAdvanced(t, all, revision, t');
    hide Written;
    assert forall c | c in some :: c in all;
    assert SchemaAllows(t[FilesystemKey]) && SchemaAllows(t'[FilesystemKey]);
  }

  lemma AllocationIsClean(cur: Table, c: Change, revision: Revision)
    requires WellKeyed(cur) && Allocates(c)
    requires HeaderAt(RowsAfter(cur, cur, c, revision)).Some?
    requires SchemaAllows(FilesystemRecord(HeaderAt(RowsAfter(cur, cur, c, revision)).value))
    ensures !WriteViolates(cur, Writes(cur, cur, c, revision))
  {
    var w := Writes(cur, cur, c, revision);
    forall k | k in w.written ensures !Violates(cur - w.removed, k, w.written[k]) {
      assert k == FilesystemKey;
    }
  }

  lemma StagedTurn(t: Table, loaded: Table, all: seq<Change>, q: Request, revision: Revision, n: nat, t': Table)
      returns (cur: Table)
    requires Comparable(t, loaded, all, q) && StageAll(t, all, q, revision) == Some(t') && n < |all|
    ensures StageAll(t, all[..n], q, revision) == Some(cur) && Turn(t, all, revision, n, cur, t')
    ensures StepFacts(t, loaded, all[..n], all[n], cur, revision)
    ensures var w := Writes(cur, cur, all[n], revision);
            && (!Allocates(all[n]) ==> w == Writes(t, t, all[n], revision))
            && forall k :: (k in w.written || k in w.removed) <==> Touches(all[n], k)
    ensures Written(t, all[..n + 1], revision, RowsAfter(cur, cur, all[n], revision))
  {
    assert all[..|all|] == all;
    assert DistinctTargets(all) && WellKeyed(t) && WellKeyed(loaded);
    hide StageAll, DistinctTargets, Written, WellKeyed, KeepsContext, Comparable, StepFacts, Stages, ChangeRefusal;
    hide Writes;
    StagedPrefix(t, all, q, revision, n, |all|);
    StagedPrefix(t, all, q, revision, n + 1, |all|);
    StagedIsWritten(t, loaded, all, q, revision, n);
    StagedIsWritten(t, loaded, all, q, revision, n + 1);
    StagedIsWritten(t, loaded, all, q, revision, |all|);
    cur := StageAll(t, all[..n], q, revision).value;
    StagedAtEnd(t, all, q, revision, n);
    StagedFacts(t, loaded, all, q, revision, n, cur);
    StagedIff(t, loaded, all[..n], all[n], cur, q, revision);
    StepWrites(t, loaded, all[..n], all[n], cur, q, revision);
  }

  lemma CleanInOrder(t: Table, loaded: Table, all: seq<Change>, q: Request, revision: Revision, n: nat, t': Table)
    requires Comparable(t, loaded, all, q) && StageAll(t, all, q, revision) == Some(t') && n < |all|
    requires SchemaHolds(t) && SchemaHolds(t') && Unique(t') && TakenInOrder(t, all, revision)
    ensures CleanAt(t, all, q, revision, n)
  {
    hide Comparable, StageAll, Writes, WriteViolates, StepFacts, SchemaHolds, Unique, TakenInOrder, Written;
    var cur := StagedTurn(t, loaded, all, q, revision, n, t');
    if Allocates(all[n]) {
      HeaderBetween(t, all, revision, n, RowsAfter(cur, cur, all[n], revision), t');
      AllocationIsClean(cur, all[n], revision);
    } else {
      OrdinaryIsClean(t, all, revision, n, cur, t', Writes(cur, cur, all[n], revision));
    }
  }

  lemma OrderIfClean(t: Table, loaded: Table, all: seq<Change>, q: Request, revision: Revision, t': Table,
                     x: nat, y: nat, k: Key, j: Key)
    requires Comparable(t, loaded, all, q) && StageAll(t, all, q, revision) == Some(t')
    requires x < y < |all| && Touches(all[x], k) && Touches(all[y], j) && CleanAt(t, all, q, revision, x)
    ensures RowAllows(t, all[x], k, j, revision)
  {
    assert WellKeyed(t);
    hide Comparable, StageAll, Writes, StepFacts, WellKeyed;
    var cur := StagedTurn(t, loaded, all, q, revision, x, t');
    var now := Value(Writes(t, t, all[x], revision), k);
    if k != j && j in t && now.Some? {
      if j == FilesystemKey {
        HeaderSharesNothing(t, j, now.value);
      } else if Allocates(all[x]) {
        AllocatorSharesNothing(t, all[x], revision, k, t[j]);
      } else {
        StoredRow(t, all, revision, x, cur, t', y, j);
        var w := Writes(cur, cur, all[x], revision);
        assert j !in w.removed by { OnlyOneTouches(all, x, y, j); }
        assert !Violates(cur - w.removed, k, w.written[k]);
        assert j in cur - w.removed;
      }
    }
  }

  lemma OnlyOneTouches(all: seq<Change>, x: nat, y: nat, j: Key)
    requires DistinctTargets(all) && x < y < |all| && Touches(all[y], j) && j != FilesystemKey
    ensures !Touches(all[x], j)
  {
  }

  lemma AllocatorSharesNothing(t: Table, c: Change, revision: Revision, k: Key, r: Record)
    requires Allocates(c) && Value(Writes(t, t, c, revision), k).Some?
    ensures !SameUnique(r, Value(Writes(t, t, c, revision), k).value)
  {
  }

  /** Where the in-memory store stages a list into rows without shared unique columns,
      every change is clean at its turn exactly when the final rows meet the CHECK
      constraints and shared columns are freed before they are taken. */
  lemma CleanIff(t: Table, loaded: Table, all: seq<Change>, q: Request, revision: Revision, t': Table)
    requires Comparable(t, loaded, all, q) && ConstraintsHold(t) && StageAll(t, all, q, revision) == Some(t')
    requires Unique(t')
    ensures Clean(t, all, q, revision) <==> SchemaHolds(t') && TakenInOrder(t, all, revision)
  {
    assert SchemaHolds(t) && WellKeyed(t) && DistinctTargets(all) && WellShaped(all, q.mutation);
    assert LoadedFrom(t, loaded, all) && all[..|all|] == all;
    hide Comparable, StageAll, ApplyAll, SchemaHolds, Unique, RowAllows, CleanAt, ConstraintsHold, WellKeyed;
    hide DistinctTargets, WellShaped, LoadedFrom;
    if SchemaHolds(t') && TakenInOrder(t, all, revision) {
      forall n: nat | n < |all| ensures CleanAt(t, all, q, revision, n) {
        CleanInOrder(t, loaded, all, q, revision, n, t');
      }
    }
    if Clean(t, all, q, revision) {
      DatabaseFollows(t, loaded, all, q, revision, |all|);
      AppliedKeepsConstraints(t, loaded, all, q, revision);
      assert SchemaHolds(t') by { ConstraintsGiveSchema(t'); }
      forall x, y, k, j | 0 <= x < y < |all| && Touches(all[x], k) && Touches(all[y], j)
        ensures RowAllows(t, all[x], k, j, revision)
      {
        OrderIfClean(t, loaded, all, q, revision, t', x, y, k, j);
      }
    }
  }

  lemma ConstraintsGiveSchema(t: Table)
    requires ConstraintsHold(t)
    ensures SchemaHolds(t)
  {
  }

  // ----------------------------------------------------------- preconditions

  function OwnLease(q: Request): Key
  {
    WriterLeaseKey(q.fence.scope)
  }

  /** Past the ledger probe and the fence check. */
  predicate PastFence(t: Table, q: Request)
  {
    OwnLease(q) in t && MutationKey(q.mutation.id) !in t
  }

  predicate AsksOwnRevision(q: Request)
  {
    exists p :: p in q.preconditions && p.RecordRevision? && p.key == OwnLease(q)
  }

  /** The stores judge a precondition alike unless it is about the own lease: the
      database accepts its absence, the in-memory store its true revision. */
  lemma PreconditionCompared(t: Table, q: Request, p: Precondition)
    requires PastFence(t, q) && p in q.preconditions
    ensures var database, memory := ConflictOf(p, t, Loaded(t, q), q).None?, ConflictOf(p, t, t, q).None?;
      if p == RecordAbsent(OwnLease(q)) then database && !memory
      else if p.RecordRevision? && p.key == OwnLease(q) then !database
      else database == memory
  {
    if k :| k in PreconditionKeys(p) && Own(q, k) {
      OwnRowNotLoaded(t, q, k);
      assert PreconditionKeys(p) == {k};
    } else {
      PreconditionSeesTheTable(t, q, p);
    }
  }

  lemma PreconditionsCompared(t: Table, q: Request)
    requires PastFence(t, q)
    ensures PreconditionsTrue(t, q) ==> (PreconditionsHold(t, q) <==> !AsksOwnRevision(q))
    ensures PreconditionsHold(t, q) ==> (PreconditionsTrue(t, q) <==> RecordAbsent(OwnLease(q)) !in q.preconditions)
  {
    hide PastFence, ConflictOf, Loaded;
    forall p | p in q.preconditions
      ensures p == RecordAbsent(OwnLease(q)) ==>
        ConflictOf(p, t, Loaded(t, q), q).None? && ConflictOf(p, t, t, q).Some?
      ensures p.RecordRevision? && p.key == OwnLease(q) ==> ConflictOf(p, t, Loaded(t, q), q).Some?
      ensures p != RecordAbsent(OwnLease(q)) && !(p.RecordRevision? && p.key == OwnLease(q)) ==>
        ConflictOf(p, t, Loaded(t, q), q).None? == ConflictOf(p, t, t, q).None?
    {
      PreconditionCompared(t, q, p);
    }
  }

  // -------------------------------------------------------------- transitions

  /** On the loaded rows the validators see what they see on the whole table, unless a
      header stands that the request did not load; then they pass whatever passes on
      the whole table. */
  lemma TransitionsCompared(t: Table, q: Request)
    requires LoadedFrom(t, Loaded(t, q), q.changes)
    ensures TransitionsOk(t, q.changes) ==> TransitionsOk(Loaded(t, q), q.changes)
    ensures Guarded(t, q) || FilesystemKey !in t ==>
      (TransitionsOk(t, q.changes) <==> TransitionsOk(Loaded(t, q), q.changes))
  {
    var loaded := Loaded(t, q);
    assert Agree(t, loaded, q.changes) && Agree(loaded, t, q.changes);
    if Guarded(t, q) || FilesystemKey !in t {
      assert Lookup(t, FilesystemKey) == Lookup(loaded, FilesystemKey);
      hide TransitionsOk, Agree, Loaded;
      if TransitionsOk(t, q.changes) {
        TransitionsAgree(t, loaded, q.changes);
      }
      if TransitionsOk(loaded, q.changes) {
        TransitionsAgree(loaded, t, q.changes);
      }
    } else if TransitionsOk(t, q.changes) {
      assert HeaderAt(loaded).None? && FilesystemKey !in loaded;
      hide Agree, Loaded, XattrsOk;
      XattrsAgree(t, loaded, q.changes);
    }
  }

  // ------------------------------------------------------------------- locks

  predicate InsertsLock(c: Change)
  {
    c.Insert? && c.record.LockRecord?
  }

  /** No inserted lock conflicts with a stored lock that a later change takes away. */
  ghost predicate LocksInOrder(t: Table, changes: seq<Change>)
  {
    forall x, y | 0 <= x < y < |changes| && InsertsLock(changes[x]) && RemovedLock(changes[y]).Some?
      :: LaterAllows(t, changes[x], changes[y])
  }

  predicate LaterAllows(t: Table, c: Change, d: Change)
    requires InsertsLock(c) && RemovedLock(d).Some?
  {
    var k := RemovedLock(d).value;
    k in t && t[k].LockRecord? ==> !Conflicts(c.record.lock, t[k].lock)
  }

  /** The lock a change writes stands afterwards. */
  lemma FinalLockStands(t: Table, q: Request, revision: Revision, t': Table, c: Change)
    requires Stepped(t, q, revision, t') && c in q.changes && FinalLock(c).Some?
    ensures c.key in t' && t'[c.key] == LockRecord(FinalLock(c).value.(revision := revision))
  {
    hide Stepped, Writes;
    assert Touches(c, c.key);
    ChangeAt(t, q, revision, t', c, c.key);
    FinalLockWritten(t, c, revision);
  }

  lemma FinalLockWritten(t: Table, c: Change, revision: Revision)
    requires FinalLock(c).Some?
    ensures !Allocates(c)
    ensures Value(Writes(t, t, c, revision), c.key) == Some(LockRecord(FinalLock(c).value.(revision := revision)))
  {
  }

  /** A stored lock that is not taken away keeps its claim. */
  lemma KeptLockStands(t: Table, q: Request, revision: Revision, t': Table, k: Key)
    requires Stepped(t, q, revision, t') && k in t && t[k].LockRecord? && k.LockKey? && !Removed(q.changes, k)
    ensures k in t' && t'[k].LockRecord? && SameClaim(t[k].lock, t'[k].lock)
  {
    hide Stepped, Writes, Admits, ShapeError;
    if c :| c in q.changes && Touches(c, k) {
      ChangeAt(t, q, revision, t', c, k);
      assert RemovedLock(c) != Some(k);
      KeptLockWritten(t, c, q, revision, k);
    } else {
      UntouchedKept(t, q, revision, t', k);
    }
  }

  lemma KeptLockWritten(t: Table, c: Change, q: Request, revision: Revision, k: Key)
    requires ShapeError(c, q.mutation).None? && Admits(t, c, q) && Touches(c, k) && RemovedLock(c) != Some(k)
    requires k in t && t[k].LockRecord? && k.LockKey?
    ensures !Allocates(c)
    ensures var now := Value(Writes(t, t, c, revision), k);
            now.Some? && now.value.LockRecord? && SameClaim(t[k].lock, now.value.lock)
  {
  }

  /** A conflict-free table after the request means its locks were admissible. */
  lemma FreeMeansAdmissible(t: Table, q: Request, revision: Revision, t': Table)
    requires Stepped(t, q, revision, t') && ConflictFree(t')
    ensures LocksOk(t, q.changes)
  {
    hide Stepped;
    forall id ensures !ConflictId(t, q.changes, id) {
      if c, d :| Clash(q.changes, c, d) && id == Lower(FinalLock(c).value.id, FinalLock(d).value.id) {
        FinalLockStands(t, q, revision, t', c);
        FinalLockStands(t, q, revision, t', d);
      }
      if c, k :| Blocked(t, q.changes, c, k) && id == k.lock {
        FinalLockStands(t, q, revision, t', c);
        KeptLockStands(t, q, revision, t', k);
      }
    }
  }

  /** Admissible locks in order are free of staged conflicts at every turn. */
  lemma OrderedIsFree(t: Table, changes: seq<Change>, mutation: MutationContext, revision: Revision, n: nat, cur: Table)
    requires n < |changes| && LocksOk(t, changes) && LocksInOrder(t, changes)
    requires WellKeyed(t) && WellKeyed(cur) && WellShaped(changes, mutation)
    requires Written(t, changes[..n], revision, cur)
    ensures LockFree(cur, changes[n])
  {
    var c := changes[n];
    if InsertsLock(c) {
      forall j | j in cur && j.LockKey? && cur[j].LockRecord? ensures !Conflicts(c.record.lock, cur[j].lock) {
        hide Written, WellKeyed;
        LockOrigin(t, changes[..n], mutation, revision, cur, j);
        StagedLockFree(t, changes, n, cur, j);
      }
    }
  }

  lemma NoClashStaged(t: Table, changes: seq<Change>, c: Change, d: Change, l: Lock)
    requires LocksOk(t, changes) && c in changes && d in changes && InsertsLock(c)
    requires FinalLock(d).Some? && SameClaim(FinalLock(d).value, l)
    ensures !Conflicts(c.record.lock, l)
  {
    assert !ConflictId(t, changes, Lower(FinalLock(c).value.id, FinalLock(d).value.id));
    assert !Clash(changes, c, d);
  }

  lemma LaterRemovalAllows(t: Table, changes: seq<Change>, n: nat, j: Key)
    requires n < |changes| && InsertsLock(changes[n]) && LocksInOrder(t, changes)
    requires j in t && t[j].LockRecord? && Removed(changes, j) && !Removed(changes[..n], j)
    ensures !Conflicts(changes[n].record.lock, t[j].lock)
  {
    var d :| d in changes && RemovedLock(d) == Some(j);
    var y :| 0 <= y < |changes| && changes[y] == d;
    assert LaterAllows(t, changes[n], changes[y]);
  }

  lemma StandingAllows(t: Table, changes: seq<Change>, c: Change, j: Key)
    requires LocksOk(t, changes) && WellKeyed(t) && c in changes && InsertsLock(c)
    requires j in t && j.LockKey? && t[j].LockRecord? && !Removed(changes, j)
    ensures !Conflicts(c.record.lock, t[j].lock)
  {
    assert Names(t[j], j) && !ConflictId(t, changes, j.lock);
    assert !Blocked(t, changes, c, j);
    ConflictsSymmetric(c.record.lock, t[j].lock);
  }

  lemma StagedLockFree(t: Table, changes: seq<Change>, n: nat, cur: Table, j: Key)
    requires n < |changes| && InsertsLock(changes[n]) && LocksOk(t, changes) && LocksInOrder(t, changes)
    requires WellKeyed(t) && j in cur && j.LockKey? && cur[j].LockRecord?
    requires || (exists d :: d in changes[..n] && FinalLock(d).Some? && SameClaim(FinalLock(d).value, cur[j].lock))
             || (j in t && t[j].LockRecord? && SameClaim(t[j].lock, cur[j].lock) && !Removed(changes[..n], j))
    ensures !Conflicts(changes[n].record.lock, cur[j].lock)
  {
    hide LocksOk, LocksInOrder, Removed;
    if d :| d in changes[..n] && FinalLock(d).Some? && SameClaim(FinalLock(d).value, cur[j].lock) {
      NoClashStaged(t, changes, changes[n], d, cur[j].lock);
    } else if Removed(changes, j) {
      LaterRemovalAllows(t, changes, n, j);
    } else {
      StandingAllows(t, changes, changes[n], j);
    }
  }

  /** Free of staged conflicts at every turn means in order. */
  lemma FreeIsOrdered(t: Table, changes: seq<Change>, revision: Revision, x: nat, y: nat, cur: Table)
    requires x < y < |changes| && InsertsLock(changes[x]) && RemovedLock(changes[y]).Some?
    requires DistinctTargets(changes) && Written(t, changes[..x], revision, cur) && LockFree(cur, changes[x])
    ensures LaterAllows(t, changes[x], changes[y])
  {
    var k := RemovedLock(changes[y]).value;
    assert Touches(changes[y], k);
    forall d | d in changes[..x] ensures !Touches(d, k) {
      var z :| 0 <= z < x && changes[z] == d;
    }
    assert Lookup(cur, k) == Lookup(t, k);
  }

  // ------------------------------------------------------------ both stores

  lemma ImageHasContent(t: Table, before: nat)
    requires ImageOk(t, before)
    ensures WellKeyed(t) && Matched(t)
    ensures FilesystemKey !in t ==> forall k | k in t :: !t[k].InodeRecord?
  {
    assert WellKeyed(t);
    ImageIffHealthy(t, before);
    if HeaderAt(t).None? {
      hide ImageOk;
      VacantIsSound(t);
    }
    assert FilesystemKey in t ==> Names(t[FilesystemKey], FilesystemKey);
  }

  lemma ContextsKept(t: Table, q: Request, before: nat)
    requires ImageOk(t, before) && WholeTransitionsOk(t, q.changes)
    ensures forall c | c in q.changes :: KeepsContext(t, c)
  {
    ImageHasContent(t, before);
  }

  lemma LoadedWellKeyed(t: Table, q: Request)
    requires WellKeyed(t)
    ensures WellKeyed(Loaded(t, q))
  {
  }

  lemma AcceptedIsComparable(t: Table, q: Request, before: nat)
    requires ImageOk(t, before) && PreflightOk(q) && forall c | c in q.changes :: KeepsContext(t, c)
    ensures Comparable(t, Loaded(t, q), q.changes, q)
  {
    assert WellKeyed(t);
    hide ImageOk, KeepsContext;
    LoadedWellKeyed(t, q);
    LoadedCoversTargets(t, q);
  }

  /** When the in-memory store accepts a request, the database store accepts it with the
      same rows exactly when no precondition asks for the revision of the request's own
      lease, the rows meet the CHECK constraints and no change takes a unique column
      before another frees it. */
  lemma MemoryThenDatabase(t: Table, q: Request, revision: Revision, depth: nat, t': Table, before: nat)
    requires ConstraintsHold(t) && ImageOk(t, before) && PastFence(t, q)
    requires MemoryAccepts(t, q, revision, depth, t')
    ensures Admitted(t, q, revision, depth, t') <==>
            !AsksOwnRevision(q) && SchemaHolds(t') && TakenInOrder(t, q.changes, revision)
  {
    assert Unique(t');
    hide ImageOk, StageAll, PreflightOk, WholeTransitionsOk, ConstraintsHold, SchemaHolds, TakenInOrder, Unique;
    var all, loaded := q.changes, Loaded(t, q);
    ContextsKept(t, q, before);
    AcceptedIsComparable(t, q, before);
    PreconditionsCompared(t, q);
    assert TransitionsOk(loaded, all) by {
      assert TransitionsOk(t, all) by { WholeGives(t, all); }
      LoadedCovers(t, q);
      TransitionsCompared(t, q);
    }
    hide PastFence, PreconditionsTrue, PreconditionsHold, AsksOwnRevision, TransitionsOk, LocksOk, Comparable, Clean;
    hide TargetedOk, ApplyAll, Loaded;
    assert all[..|all|] == all;
    CleanIff(t, loaded, all, q, revision, t');
    if !AsksOwnRevision(q) && Clean(t, all, q, revision) {
      DatabaseFollows(t, loaded, all, q, revision, |all|);
      MemoryIsProposed(t, q, revision, depth, t', before);
    }
    if Admitted(t, q, revision, depth, t') {
      BothAreClean(t, loaded, all, q, revision);
    }
  }

  lemma WholeGives(t: Table, changes: seq<Change>)
    requires WholeTransitionsOk(t, changes)
    ensures TransitionsOk(t, changes)
  {
  }

  lemma LoadedCovers(t: Table, q: Request)
    requires PreflightOk(q)
    ensures LoadedFrom(t, Loaded(t, q), q.changes) && WellShaped(q.changes, q.mutation)
    ensures DistinctTargets(q.changes)
  {
    LoadedCoversTargets(t, q);
  }

  lemma BothAreClean(t: Table, loaded: Table, all: seq<Change>, q: Request, revision: Revision)
    requires Comparable(t, loaded, all, q)
    requires StageAll(t, all, q, revision).Some? && ApplyAll(t, loaded, all, q, revision).Done?
    ensures Clean(t, all, q, revision)
  {
    hide Comparable, StageAll, ApplyAll, CleanAt;
    forall n: nat | n < |all| ensures CleanAt(t, all, q, revision, n) {
      BothAt(t, loaded, all, q, revision, n);
    }
  }

  /** Applied and valid as a whole, a request passes the lock and targeted checks. */
  lemma MemoryIsProposed(t: Table, q: Request, revision: Revision, depth: nat, t': Table, before: nat)
    requires ImageOk(t, before) && PreflightOk(q) && ImageOk(t', depth)
    requires ApplyAll(t, Loaded(t, q), q.changes, q, revision) == Done(t')
    ensures LocksOk(t, q.changes) && TargetedOk(t', Loaded(t, q), q.changes, depth)
  {
    assert WellKeyed(t) && ConflictFree(t');
    hide ImageOk, ConflictFree, PreflightOk, ApplyAll, TargetedOk, LocksOk, Loaded;
    LoadedCovers(t, q);
    SteppedByApply(t, q, revision, t');
    FreeMeansAdmissible(t, q, revision, t');
    ImageImpliesTargeted(t, q, revision, t', depth);
  }

  lemma SteppedByApply(t: Table, q: Request, revision: Revision, t': Table)
    requires WellKeyed(t) && WellShaped(q.changes, q.mutation) && DistinctTargets(q.changes)
    requires LoadedFrom(t, Loaded(t, q), q.changes)
    requires ApplyAll(t, Loaded(t, q), q.changes, q, revision) == Done(t')
    ensures Stepped(t, q, revision, t')
  {
    hide ApplyAll, DistinctTargets, WellShaped, LoadedFrom, Written, Admits;
    AppliedIsWritten(t, Loaded(t, q), q.changes, q, revision);
  }

  /** What an accepted request must meet for the in-memory store to accept it too. */
  ghost predicate MemoryGuard(t: Table, q: Request, t': Table, depth: nat)
  {
    && RecordAbsent(OwnLease(q)) !in q.preconditions
    && TransitionsOk(t, q.changes) && LocksInOrder(t, q.changes)
    && ImageGuard(t, q) && FitsDepth(t', depth)
  }

  lemma AdmittedKeepsContext(t: Table, q: Request, revision: Revision, t': Table, c: Change)
    requires Stepped(t, q, revision, t') && c in q.changes
    ensures KeepsContext(t, c)
  {
    hide Stepped;
    if c.Replace? {
      assert Touches(c, c.key);
      ChangeAt(t, q, revision, t', c, c.key);
    }
  }

  lemma PublicationExtra(t: Table, q: Request, revision: Revision, depth: nat, t': Table, c: Change, cur: Table)
    requires WellKeyed(t) && ConstraintsHold(t) && Matched(t) && Admitted(t, q, revision, depth, t')
    requires c in q.changes && c.PublishContent? && Same(cur, t, c)
    ensures InodeAt(cur, c.publication.inode).Some?
    ensures ContentFile(InodeAt(cur, c.publication.inode).value) == Some(c.publication.prepared.binding.file)
  {
    hide Admitted, Matched, ConstraintsHold, WellKeyed;
    PublicationContinuesStored(t, q, revision, depth, t', c.publication);
    assert Touches(c, InodeKey(c.publication.inode));
  }

  lemma StagingExtra(t: Table, changes: seq<Change>, c: Change, cur: Table)
    requires XattrsOk(t, changes) && c in changes && c.PublishXattrStaging? && Same(cur, t, c)
    ensures StagingStaged(cur, c.staging, c.inode, c.name)
  {
    assert StagingOk(t, changes, c);
    assert Touches(c, XattrStagingKey(c.staging));
  }

  /** In order, every change meets the extra checks at its turn. */
  lemma ExtraHolds(t: Table, q: Request, revision: Revision, depth: nat, t': Table, n: nat)
    requires ConstraintsHold(t) && Matched(t) && Admitted(t, q, revision, depth, t') && n < |q.changes|
    requires Comparable(t, Loaded(t, q), q.changes, q) && LocksOk(t, q.changes)
    requires XattrsOk(t, q.changes) && LocksInOrder(t, q.changes)
    ensures ExtraAt(t, Loaded(t, q), q.changes, q, revision, n)
  {
    hide Admitted, Matched, ConstraintsHold, LocksOk, ApplyAll, LocksInOrder, LockFree, Loaded, XattrsOk, StagingStaged;
    var loaded, c := Loaded(t, q), q.changes[n];
    assert WellKeyed(t) && WellShaped(q.changes, q.mutation);
    if ApplyAll(t, loaded, q.changes[..n], q, revision).Done? {
      var cur := ApplyAll(t, loaded, q.changes[..n], q, revision).table;
      FactsAt(t, loaded, q.changes, q, revision, n, cur);
      hide Comparable, WellKeyed, WellShaped, Written;
      OrderedIsFree(t, q.changes, q.mutation, revision, n, cur);
      if !Allocates(c) {
        TouchedSame(t, loaded, q.changes[..n], c, cur, revision);
      }
      hide StepFacts, Same;
      if c.PublishContent? {
        PublicationExtra(t, q, revision, depth, t', c, cur);
      } else if c.PublishXattrStaging? {
        StagingExtra(t, q.changes, c, cur);
      }
    }
  }

  lemma AllExtra(t: Table, q: Request, revision: Revision, depth: nat, t': Table)
    requires ConstraintsHold(t) && Matched(t) && Admitted(t, q, revision, depth, t')
    requires Comparable(t, Loaded(t, q), q.changes, q)
    requires XattrsOk(t, q.changes) && LocksInOrder(t, q.changes)
    ensures StageAll(t, q.changes, q, revision) == Some(t')
  {
    hide Admitted, ConstraintsHold, Matched, Comparable, XattrsOk, LocksInOrder, ApplyAll, StageAll, ExtraAt, Loaded;
    var loaded, all := Loaded(t, q), q.changes;
    AdmittedParts(t, q, revision, depth, t');
    hide LocksOk, TransitionsOk, TargetedOk, PreflightOk, DistinctTargets, ContentPaired, WellShaped;
    forall n: nat | n < |all| ensures ExtraAt(t, loaded, all, q, revision, n) {
      ExtraHolds(t, q, revision, depth, t', n);
    }
    assert all[..|all|] == all;
    MemoryFollows(t, loaded, all, q, revision, |all|);
  }

  lemma BothAreOrdered(t: Table, loaded: Table, all: seq<Change>, q: Request, revision: Revision)
    requires Comparable(t, loaded, all, q)
    requires StageAll(t, all, q, revision).Some? && ApplyAll(t, loaded, all, q, revision).Done?
    ensures LocksInOrder(t, all)
  {
    forall x, y | 0 <= x < y < |all| && InsertsLock(all[x]) && RemovedLock(all[y]).Some?
      ensures LaterAllows(t, all[x], all[y])
    {
      hide StageAll, ApplyAll;
      BothAt(t, loaded, all, q, revision, x);
      var cur := ApplyAll(t, loaded, all[..x], q, revision).table;
      FactsAt(t, loaded, all, q, revision, x, cur);
      FreeIsOrdered(t, all, revision, x, y, cur);
    }
  }

  /** When the database store accepts a request, the in-memory store accepts it with the
      same rows exactly when no precondition asks for the absence of the request's own
      lease, the transitions pass on the whole table, no inserted lock conflicts with one
      taken away later, and the image stays valid. */
  lemma DatabaseThenMemory(t: Table, q: Request, revision: Revision, depth: nat, t': Table, before: nat)
    requires ConstraintsHold(t) && ImageOk(t, before) && PastFence(t, q)
    requires Admitted(t, q, revision, depth, t')
    ensures MemoryAccepts(t, q, revision, depth, t') <==> MemoryGuard(t, q, t', depth)
    ensures Guarded(t, q) || FilesystemKey !in t ==> TransitionsOk(t, q.changes)
  {
    ImageHasContent(t, before);
    AdmittedSteps(t, q, revision, depth, t');
    AdmittedParts(t, q, revision, depth, t');
    hide ImageOk, Stepped, WellKeyed, Matched, ConstraintsHold, StageAll, TransitionsOk, LocksOk, TargetedOk, ApplyAll;
    hide DistinctTargets, ContentPaired, WellShaped, KeepsContext, LocksInOrder, ImageGuard, FitsDepth, Comparable;
    forall c | c in q.changes ensures KeepsContext(t, c) {
      AdmittedKeepsContext(t, q, revision, t', c);
    }
    assert PreconditionsHold(t, q);
    hide Admitted;
    AcceptedIsComparable(t, q, before);
    PreconditionsCompared(t, q);
    hide PreconditionsTrue, PreconditionsHold, PastFence, PreflightOk;
    LoadedCovers(t, q);
    TransitionsCompared(t, q);
    TargetedRefinesImage(t, q, revision, depth, t', before, depth);
    if MemoryGuard(t, q, t', depth) {
      XattrsPart(t, q.changes);
      AllExtra(t, q, revision, depth, t');
    }
    if MemoryAccepts(t, q, revision, depth, t') {
      BothAreOrdered(t, Loaded(t, q), q.changes, q, revision);
    }
  }

  lemma XattrsPart(t: Table, changes: seq<Change>)
    requires TransitionsOk(t, changes)
    ensures XattrsOk(t, changes)
  {
  }
}
