/** Tree, allocation, directory-stamp and content properties over whole runs. */
module Histories {
  import opened Values
  import opened Records
  import opened Requests
  import opened Applying
  import opened Effects
  import opened Loading
  import opened Transitions
  import opened LockTable
  import opened Targeting
  import opened Admission
  import opened Namespace
  import opened Accounting
  import opened Allocation
  import opened DirectoryStamp
  import opened ContentHistory
  import opened Authority
  import opened Invariants
  import opened Coherence

  // ------------------------------------------------------------ common steps

  /** The file records of a step: the admitted table of a commit, or none changed. */
  lemma StepFiles(s: State, step: Step)
    requires Inv(s) && Enabled(s, step)
    ensures step.Commit? ==>
      && Admitted(s.table, step.request, s.current + 1, step.depth, step.files)
      && WellKeyed(s.table) && Stepped(s.table, step.request, s.current + 1, step.files)
      && SameFiles(step.files, Next(s, step).table)
    ensures step.Lease? ==> SameFiles(s.table, Next(s, step).table)
  {
    hide Admitted, Stepped;
    InvTable(s);
    hide Inv, Accounted, ConflictFree, Matched, ConstraintsHold;
    TableInvParts(s.table);
    if step.Commit? {
      TableInvPreserved(s.table, step.request, s.current + 1, step.depth, step.files);
    } else {
      hide TableInv;
      LeaseTable(s, step);
    }
  }

  lemma FilesSymmetric(a: Table, b: Table)
    requires SameFiles(a, b)
    ensures SameFiles(b, a)
  {
  }

  lemma SameHeader(a: Table, b: Table)
    requires SameFiles(a, b)
    ensures HeaderAt(a) == HeaderAt(b)
  {
    assert Lookup(a, FilesystemKey) == Lookup(b, FilesystemKey);
  }

  // -------------------------------------------------------------------- tree

  /** A step keeps the tree exactly when it is no commit or its commit meets the
      caller condition. */
  lemma StepTree(s: State, step: Step)
    requires Inv(s) && Enabled(s, step) && Tree(s.table)
    ensures Tree(Next(s, step).table) <==> (step.Commit? ==> TreeGuard(s.table, step.request))
  {
    hide Inv, Enabled, Next, Tree, TreeGuard, Admitted, Stepped, SameFiles;
    StepFiles(s, step);
    if step.Commit? {
      TreeIffGuard(s.table, step.request, s.current + 1, step.depth, step.files);
      FilesSymmetric(step.files, Next(s, step).table);
      if Tree(step.files) {
        SameTree(step.files, Next(s, step).table);
      }
      if Tree(Next(s, step).table) {
        SameTree(Next(s, step).table, step.files);
      }
    } else {
      SameTree(s.table, Next(s, step).table);
    }
  }

  ghost predicate TreeGuarded(run: seq<Step>, m: nat, n: nat)
    requires m <= n <= |run|
  {
    forall x | m <= x < n && run[x].Commit? :: TreeGuard(At(FRESH, run, x).table, run[x].request)
  }

  /** Once the namespace is a tree, it stays one as long as every commit meets the
      caller condition; the first commit that does not breaks it. */
  lemma {:induction false} TreeOverRun(run: seq<Step>, m: nat, n: nat)
    requires Runs(FRESH, run) && m <= n <= |run| && Tree(At(FRESH, run, m).table)
    ensures TreeGuarded(run, m, n) ==> Tree(At(FRESH, run, n).table)
    ensures m < n && TreeGuarded(run, m, n - 1) && !TreeGuarded(run, m, n) ==> !Tree(At(FRESH, run, n).table)
    decreases n
  {
    hide Inv, Enabled, Next, Tree, TreeGuard;
    if m < n && TreeGuarded(run, m, n - 1) {
      TreeOverRun(run, m, n - 1);
      InvAlways(run, n - 1);
      StepTree(At(FRESH, run, n - 1), run[n - 1]);
    }
  }

  // --------------------------------------------------------------- allocation

  /** All cookies lie below the mark; without a header there are no entries. */
  ghost predicate CookieInv(t: Table)
  {
    match HeaderAt(t)
    case Some(h) => CookiesBelow(t, h.nextCookie)
    case None => forall k | k in t :: !t[k].EntryRecord?
  }

  lemma SameCookieInv(a: Table, b: Table)
    requires SameFiles(a, b) && CookieInv(a) && WellKeyed(b)
    ensures CookieInv(b)
  {
    SameHeader(a, b);
    forall k | k in b && b[k].EntryRecord? ensures k in a && a[k] == b[k] {
      assert Names(b[k], k);
      assert Lookup(a, k) == Lookup(b, k);
    }
  }

  /** Without a header before, every entry after was inserted and checked. */
  lemma FirstCookies(t: Table, q: Request, revision: Revision, depth: nat, t': Table)
    requires Stepped(t, q, revision, t') && TargetedOk(t', Loaded(t, q), q.changes, depth)
    requires HeaderAt(t).None? && CookieInv(t)
    ensures CookieInv(t')
  {
    forall k | k in t' && t'[k].EntryRecord? && HeaderAt(t').Some?
      ensures t'[k].entry.cookie < HeaderAt(t').value.nextCookie
    {
      assert Names(t'[k], k) && (k in t ==> Names(t[k], k));
      var c := ChangedEntry(t, q, revision, t', k);
      InsertedHere(t, c, q, revision, k);
      assert WrittenRowOk(t', c);
    }
  }

  lemma InsertedHere(t: Table, c: Change, q: Request, revision: Revision, k: Key)
    requires ShapeError(c, q.mutation).None? && Admits(t, c, q) && Touches(c, k) && k.EntryKey?
    requires forall j | j in t :: !t[j].EntryRecord?
    requires k !in t && Value(Writes(t, t, c, revision), k).Some?
    ensures c.Insert? && Value(Writes(t, t, c, revision), k).value == Stamp(c.record, revision)
  {
  }

  lemma CookieInvAdmitted(t: Table, q: Request, revision: Revision, depth: nat, t': Table)
    requires WellKeyed(t) && Admitted(t, q, revision, depth, t') && CookieInv(t)
    ensures CookieInv(t')
  {
    hide Admitted, Stepped, TransitionsOk, LocksOk, DistinctTargets, PreflightOk, ApplyAll, TargetedOk;
    AdmittedSteps(t, q, revision, depth, t');
    AdmittedParts(t, q, revision, depth, t');
    if HeaderAt(t).None? {
      FirstCookies(t, q, revision, depth, t');
    } else if Delete(FilesystemKey) in q.changes {
      HeaderDeleted(t, q, revision, depth, t');
    } else {
      CookiesStayBelow(t, q, revision, depth, t');
    }
  }

  lemma HeaderDeleted(t: Table, q: Request, revision: Revision, depth: nat, t': Table)
    requires Stepped(t, q, revision, t') && TargetedOk(t', Loaded(t, q), q.changes, depth)
    requires Delete(FilesystemKey) in q.changes
    ensures CookieInv(t')
  {
    var c := Delete(FilesystemKey);
    assert Touches(c, FilesystemKey);
    assert Lookup(t', FilesystemKey) == Value(Writes(t, t, c, revision), FilesystemKey);
  }

  lemma {:induction false} CookiesAlwaysBelow(run: seq<Step>, n: nat)
    requires Runs(FRESH, run) && n <= |run|
    ensures CookieInv(At(FRESH, run, n).table)
    decreases n
  {
    hide Inv, Enabled, Next, CookieInv, Admitted, SameFiles, WellKeyed, Stepped;
    if n == 0 {
      assert CookieInv(FRESH.table) by { EmptyCookies(); }
    } else {
      var s := At(FRESH, run, n - 1);
      CookiesAlwaysBelow(run, n - 1);
      InvAlways(run, n - 1);
      InvAlways(run, n);
      StepFiles(s, run[n - 1]);
      assert WellKeyed(At(FRESH, run, n).table) by {
        InvTable(At(FRESH, run, n));
        TableInvParts(At(FRESH, run, n).table);
      }
      if run[n - 1].Commit? {
        CookieInvAdmitted(s.table, run[n - 1].request, s.current + 1, run[n - 1].depth, run[n - 1].files);
        SameCookieInv(run[n - 1].files, At(FRESH, run, n).table);
      } else {
        SameCookieInv(s.table, At(FRESH, run, n).table);
      }
    }
  }

  lemma EmptyCookies()
    ensures CookieInv(map[])
  {
  }

  /** The header stands in every state of the segment. */
  ghost predicate HeaderStays(run: seq<Step>, m: nat, n: nat)
    requires m <= n <= |run|
  {
    forall x | m <= x <= n :: HeaderAt(At(FRESH, run, x).table).Some?
  }

  lemma StepMarks(s: State, step: Step)
    requires Inv(s) && Enabled(s, step)
    requires HeaderAt(s.table).Some? && HeaderAt(Next(s, step).table).Some?
    ensures HeaderAt(s.table).value.nextCookie <= HeaderAt(Next(s, step).table).value.nextCookie
    ensures HeaderAt(s.table).value.nextQidPath <= HeaderAt(Next(s, step).table).value.nextQidPath
  {
    hide Inv, Enabled, Next, Admitted, Stepped, SameFiles, WellKeyed;
    StepFiles(s, step);
    if step.Commit? {
      var q := step.request;
      SameHeader(step.files, Next(s, step).table);
      hide PreflightOk, TransitionsOk, LocksOk, TargetedOk, DistinctTargets, ApplyAll;
      AdmittedParts(s.table, q, s.current + 1, step.depth, step.files);
      if Delete(FilesystemKey) in q.changes {
        DeletedHeaderGone(s.table, q, s.current + 1, step.files);
      }
      MarksAdvance(s.table, q, s.current + 1, step.files);
    } else {
      SameHeader(s.table, Next(s, step).table);
    }
  }

  lemma DeletedHeaderGone(t: Table, q: Request, revision: Revision, t': Table)
    requires Stepped(t, q, revision, t') && Delete(FilesystemKey) in q.changes
    ensures HeaderAt(t').None?
  {
    var c := Delete(FilesystemKey);
    assert Touches(c, FilesystemKey);
    assert Lookup(t', FilesystemKey) == Value(Writes(t, t, c, revision), FilesystemKey);
  }

  /** While the header persists both allocation marks never fall. */
  lemma {:induction false} MarksMonotone(run: seq<Step>, m: nat, n: nat)
    requires Runs(FRESH, run) && m <= n <= |run| && HeaderStays(run, m, n)
    ensures HeaderAt(At(FRESH, run, m).table).value.nextCookie <= HeaderAt(At(FRESH, run, n).table).value.nextCookie
    ensures HeaderAt(At(FRESH, run, m).table).value.nextQidPath <= HeaderAt(At(FRESH, run, n).table).value.nextQidPath
    decreases n
  {
    hide Inv, Enabled, Next;
    if m < n {
      assert HeaderStays(run, m, n - 1);
      MarksMonotone(run, m, n - 1);
      InvAlways(run, n - 1);
      assert HeaderAt(At(FRESH, run, n).table).Some?;
      StepMarks(At(FRESH, run, n - 1), run[n - 1]);
    }
  }

  /** A new cookie that is not carried over from an entry freed in the same commit
      differs from every cookie any earlier state of the header's life held. */
  lemma NewCookieNeverSeen(run: seq<Step>, m: nat, n: nat, k: Key, j: Key)
    requires Runs(FRESH, run) && m <= n < |run| && HeaderStays(run, m, n) && run[n].Commit?
    requires k in run[n].files && run[n].files[k].EntryRecord?
    requires var t := At(FRESH, run, n).table;
             && (k in t ==> t[k].EntryRecord? && t[k].entry.cookie != run[n].files[k].entry.cookie)
             && !Transfers(Loaded(t, run[n].request), run[n].request.changes, run[n].files[k].entry)
    requires j in At(FRESH, run, m).table && At(FRESH, run, m).table[j].EntryRecord?
    ensures At(FRESH, run, m).table[j].entry.cookie < run[n].files[k].entry.cookie
  {
    hide Inv, Enabled, Next, Admitted, Stepped;
    var s := At(FRESH, run, n);
    InvAlways(run, n);
    StepFiles(s, run[n]);
    hide PreflightOk, TransitionsOk, LocksOk, TargetedOk, DistinctTargets, ApplyAll;
    AdmittedParts(s.table, run[n].request, s.current + 1, run[n].depth, run[n].files);
    NewCookieIsFresh(s.table, run[n].request, s.current + 1, run[n].files, k);
    CookiesAlwaysBelow(run, m);
    assert CookiesBelow(At(FRESH, run, m).table, HeaderAt(At(FRESH, run, m).table).value.nextCookie);
    MarksMonotone(run, m, n);
  }

  /** Every commit of the segment is guarded. */
  ghost predicate AllGuarded(run: seq<Step>, m: nat, n: nat)
    requires m <= n <= |run|
  {
    forall x | m <= x < n && run[x].Commit? :: Guarded(At(FRESH, run, x).table, run[x].request)
  }

  lemma SameQids(a: Table, b: Table, mark: nat)
    requires SameFiles(a, b) && QidsBelow(a, mark) && WellKeyed(b)
    ensures QidsBelow(b, mark)
  {
    forall k | k in b && b[k].InodeRecord? ensures b[k].node.qidPath < mark {
      assert Names(b[k], k);
      assert Lookup(a, k) == Lookup(b, k);
    }
  }

  lemma {:induction false} QidsStayBelow(run: seq<Step>, m: nat, n: nat)
    requires Runs(FRESH, run) && m <= n <= |run| && HeaderStays(run, m, n) && AllGuarded(run, m, n)
    requires QidsBelow(At(FRESH, run, m).table, HeaderAt(At(FRESH, run, m).table).value.nextQidPath)
    ensures QidsBelow(At(FRESH, run, n).table, HeaderAt(At(FRESH, run, n).table).value.nextQidPath)
    decreases n
  {
    hide Inv, Enabled, Next, QidsBelow, Guarded;
    if m < n {
      assert HeaderStays(run, m, n - 1) && AllGuarded(run, m, n - 1);
      QidsStayBelow(run, m, n - 1);
      InvAlways(run, n - 1);
      InvAlways(run, n);
      assert HeaderAt(At(FRESH, run, n).table).Some?;
      assert run[n - 1].Commit? ==> Guarded(At(FRESH, run, n - 1).table, run[n - 1].request);
      StepQids(At(FRESH, run, n - 1), run[n - 1]);
    }
  }

  lemma StepQids(s: State, step: Step)
    requires Inv(s) && Enabled(s, step) && Inv(Next(s, step))
    requires HeaderAt(s.table).Some? && HeaderAt(Next(s, step).table).Some?
    requires step.Commit? ==> Guarded(s.table, step.request)
    requires QidsBelow(s.table, HeaderAt(s.table).value.nextQidPath)
    ensures QidsBelow(Next(s, step).table, HeaderAt(Next(s, step).table).value.nextQidPath)
  {
    hide Inv, Enabled, Next, Admitted, Stepped, SameFiles, WellKeyed, QidsBelow, Guarded;
    var t' := Next(s, step).table;
    StepFiles(s, step);
    assert WellKeyed(t') by {
      InvTable(Next(s, step));
      TableInvParts(t');
    }
    if step.Commit? {
      SameHeader(step.files, t');
      if Delete(FilesystemKey) in step.request.changes {
        DeletedHeaderGone(s.table, step.request, s.current + 1, step.files);
      }
      QidsBelowIffGuard(s.table, step.request, s.current + 1, step.depth, step.files);
      SameQids(step.files, t', HeaderAt(step.files).value.nextQidPath);
    } else {
      SameHeader(s.table, t');
      SameQids(s.table, t', HeaderAt(s.table).value.nextQidPath);
    }
  }

  /** Over guarded commits an inserted inode takes a QID path no earlier state of
      the segment held, so QID paths are never reused. */
  lemma QidNeverReused(run: seq<Step>, m: nat, x: nat, n: nat, c: Change, j: Key)
    requires Runs(FRESH, run) && m <= x <= n < |run| && HeaderStays(run, m, n) && AllGuarded(run, m, n + 1)
    requires QidsBelow(At(FRESH, run, m).table, HeaderAt(At(FRESH, run, m).table).value.nextQidPath)
    requires run[n].Commit? && c in run[n].request.changes && InsertsInode(c)
    requires j in At(FRESH, run, x).table && At(FRESH, run, x).table[j].InodeRecord?
    ensures At(FRESH, run, x).table[j].node.qidPath < c.record.node.qidPath
  {
    hide Inv, Enabled, Next, Admitted, Stepped;
    var s := At(FRESH, run, n);
    assert HeaderStays(run, m, x) && HeaderStays(run, x, n) && AllGuarded(run, m, x);
    QidsStayBelow(run, m, x);
    MarksMonotone(run, x, n);
    InvAlways(run, n);
    StepFiles(s, run[n]);
    hide PreflightOk, TransitionsOk, LocksOk, TargetedOk, DistinctTargets, ApplyAll;
    AdmittedParts(s.table, run[n].request, s.current + 1, run[n].depth, run[n].files);
    GuardedQid(s.table, run[n].request, c);
  }

  // --------------------------------------------------------- directory stamp

  lemma SameListing(a: Table, b: Table, d: InodeId)
    requires SameFiles(a, b)
    ensures Listing(a, d) == Listing(b, d)
    ensures IsDirectory(a, d) == IsDirectory(b, d)
    ensures IsDirectory(a, d) ==> Generation(a, d) == Generation(b, d)
  {
    SameSets(a, b, d);
    assert forall k: Key | k.EntryKey? :: Lookup(a, k) == Lookup(b, k);
    assert forall k :: k in a <==> Lookup(a, k).Some?;
    assert forall k :: k in b <==> Lookup(b, k).Some?;
  }

  lemma StepStamp(s: State, step: Step, d: InodeId)
    requires Inv(s) && Enabled(s, step) && HeaderAt(s.table).Some?
    requires IsDirectory(s.table, d) && IsDirectory(Next(s, step).table, d)
    requires step.Commit? ==> StampGuard(s.table, step.request, d)
    ensures Stamped(s.table, Next(s, step).table, d)
  {
    hide Inv, Enabled, Next, Admitted, Stepped, SameFiles, WellKeyed, Listing, StampGuard;
    StepFiles(s, step);
    if step.Commit? {
      SameListing(step.files, Next(s, step).table, d);
      StampedIffGuard(s.table, step.request, s.current + 1, step.depth, step.files, d);
    } else {
      SameListing(s.table, Next(s, step).table, d);
    }
  }

  /** `d` stays a directory under a header, and no commit breaks the stamp condition. */
  ghost predicate StampKept(run: seq<Step>, m: nat, n: nat, d: InodeId)
    requires m <= n <= |run|
  {
    && HeaderStays(run, m, n)
    && (forall x | m <= x <= n :: IsDirectory(At(FRESH, run, x).table, d))
    && (forall x | m <= x < n && run[x].Commit? :: StampGuard(At(FRESH, run, x).table, run[x].request, d))
  }

  /** The generation never falls, and equal generations mean identical names. */
  lemma {:induction false} StampIsSound(run: seq<Step>, m: nat, n: nat, d: InodeId)
    requires Runs(FRESH, run) && m <= n <= |run| && StampKept(run, m, n, d)
    ensures Generation(At(FRESH, run, m).table, d) <= Generation(At(FRESH, run, n).table, d)
    ensures Generation(At(FRESH, run, m).table, d) == Generation(At(FRESH, run, n).table, d)
            ==> Listing(At(FRESH, run, m).table, d) == Listing(At(FRESH, run, n).table, d)
    decreases n
  {
    hide Inv, Enabled, Next, Listing, StampGuard;
    if m < n {
      assert StampKept(run, m, n - 1, d);
      StampIsSound(run, m, n - 1, d);
      InvAlways(run, n - 1);
      assert IsDirectory(At(FRESH, run, n).table, d);
      StepStamp(At(FRESH, run, n - 1), run[n - 1], d);
    }
  }

  // ---------------------------------------------------------------- content

  ghost predicate PublishesIn(step: Step, i: InodeId)
  {
    step.Commit? && exists c :: c in step.request.changes && Publishes(c, i)
  }

  /** Changed publications of `i` in [m, n). */
  ghost function Versions(run: seq<Step>, m: nat, n: nat, i: InodeId): nat
    requires m <= n <= |run|
    decreases n
  {
    if m == n then 0 else Versions(run, m, n - 1, i) + if PublishesIn(run[n - 1], i) then 1 else 0
  }

  lemma StepContent(s: State, step: Step, i: InodeId)
    requires Inv(s) && Enabled(s, step)
    requires InodeAt(s.table, i).Some? && InodeAt(Next(s, step).table, i).Some?
    ensures var a := InodeAt(s.table, i).value;
            var b := InodeAt(Next(s, step).table, i).value;
            ContentFile(a) == ContentFile(b)
            && BaseGeneration(b) == BaseGeneration(a) + if PublishesIn(step, i) then 1 else 0
  {
    hide Inv, Enabled, Next, Admitted, Stepped, SameFiles, WellKeyed;
    StepFiles(s, step);
    if step.Commit? {
      var q := step.request;
      hide PreflightOk, TransitionsOk, LocksOk, TargetedOk, DistinctTargets, ApplyAll;
      AdmittedParts(s.table, q, s.current + 1, step.depth, step.files);
      SameSets(step.files, Next(s, step).table, i);
      ContentExtends(s.table, q, s.current + 1, step.files, i);
    } else {
      SameSets(s.table, Next(s, step).table, i);
    }
  }

  /** While an inode stands, its content file is fixed and its content generation
      counts the changed publications: the content history is one linear chain. */
  lemma {:induction false} ContentCounts(run: seq<Step>, m: nat, n: nat, i: InodeId)
    requires Runs(FRESH, run) && m <= n <= |run|
    requires forall x | m <= x <= n :: InodeAt(At(FRESH, run, x).table, i).Some?
    ensures var a := InodeAt(At(FRESH, run, m).table, i).value;
            var b := InodeAt(At(FRESH, run, n).table, i).value;
            ContentFile(a) == ContentFile(b) && BaseGeneration(b) == BaseGeneration(a) + Versions(run, m, n, i)
    decreases n
  {
    hide Inv, Enabled, Next;
    if m < n {
      ContentCounts(run, m, n - 1, i);
      InvAlways(run, n - 1);
      assert InodeAt(At(FRESH, run, n).table, i).Some?;
      StepContent(At(FRESH, run, n - 1), run[n - 1], i);
    }
  }

  lemma StepMetadata(s: State, step: Step)
    requires Inv(s) && Enabled(s, step)
    ensures MetadataKept(s.table, Next(s, step).table)
  {
    hide Inv, Enabled, Next, Admitted, Stepped;
    StepFiles(s, step);
    InvTable(s);
    TableInvParts(s.table);
    hide TableInv;
    if step.Commit? {
      MetadataIsPermanent(s.table, step.request, s.current + 1, step.files);
    }
    forall k | k in s.table && s.table[k].ContentMetadataRecord?
      ensures k in Next(s, step).table && Next(s, step).table[k].ContentMetadataRecord?
              && SameBinding(s.table[k].metadata, Next(s, step).table[k].metadata)
    {
      assert Names(s.table[k], k) && !StoreOwned(k);
      assert step.Commit? ==> Lookup(step.files, k) == Lookup(Next(s, step).table, k);
      assert step.Lease? ==> Lookup(s.table, k) == Lookup(Next(s, step).table, k);
    }
  }

  /** Content metadata, once created, stands for the rest of the run with the same
      owner, file, context, policy and key commitment. */
  lemma {:induction false} MetadataForever(run: seq<Step>, m: nat, n: nat, k: Key)
    requires Runs(FRESH, run) && m <= n <= |run|
    requires k in At(FRESH, run, m).table && At(FRESH, run, m).table[k].ContentMetadataRecord?
    ensures k in At(FRESH, run, n).table && At(FRESH, run, n).table[k].ContentMetadataRecord?
    ensures SameBinding(At(FRESH, run, m).table[k].metadata, At(FRESH, run, n).table[k].metadata)
    decreases n
  {
    hide Inv, Enabled, Next;
    if m < n {
      MetadataForever(run, m, n - 1, k);
      InvAlways(run, n - 1);
      StepMetadata(At(FRESH, run, n - 1), run[n - 1]);
    }
  }

  /** Some inode holds content file `f`. */
  ghost predicate FileHeld(t: Table, f: FileId)
  {
    exists i :: InodeAt(t, i).Some? && ContentFile(InodeAt(t, i).value) == Some(f)
  }

  lemma StepRetires(s: State, step: Step, f: FileId)
    requires Inv(s) && Enabled(s, step) && ContentMetadataKey(f) in s.table && !FileHeld(s.table, f)
    ensures !FileHeld(Next(s, step).table, f)
  {
    hide Inv, Enabled, Next, Admitted, Stepped, SameFiles, WellKeyed;
    StepFiles(s, step);
    var t' := Next(s, step).table;
    if i :| InodeAt(t', i).Some? && ContentFile(InodeAt(t', i).value) == Some(f) {
      if step.Commit? {
        SameSets(step.files, t', i);
        FileNeverReturns(s.table, step.request, s.current + 1, step.depth, step.files, i, f);
      } else {
        SameSets(s.table, t', i);
      }
    }
  }

  /** A content file whose inode is gone is never used again. */
  lemma {:induction false} RetiredForever(run: seq<Step>, m: nat, n: nat, f: FileId)
    requires Runs(FRESH, run) && m <= n <= |run|
    requires var k := ContentMetadataKey(f);
             k in At(FRESH, run, m).table && At(FRESH, run, m).table[k].ContentMetadataRecord?
    requires !FileHeld(At(FRESH, run, m).table, f)
    ensures !FileHeld(At(FRESH, run, n).table, f)
    decreases n
  {
    hide Inv, Enabled, Next, FileHeld;
    if m < n {
      RetiredForever(run, m, n - 1, f);
      MetadataForever(run, m, n - 1, ContentMetadataKey(f));
      InvAlways(run, n - 1);
      StepRetires(At(FRESH, run, n - 1), run[n - 1], f);
    }
  }
}
