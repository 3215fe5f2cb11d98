/** Allocation marks: directory cookies and QID paths are never reused
    (crates/w9pt-fs-state-postgres/src/commit.rs:595-746, 1177-1216, 1642-1660). */
module Allocation {
  import opened Values
  import opened Records
  import opened Requests
  import opened Applying
  import opened Effects
  import opened Loading
  import opened Transitions
  import opened LockTable
  import opened Targeting
  import opened Admission
  import opened Namespace

  /** Every stored cookie lies below the allocation mark. */
  ghost predicate CookiesBelow(t: Table, mark: nat)
  {
    forall k | k in t && t[k].EntryRecord? :: t[k].entry.cookie < mark
  }

  ghost predicate QidsBelow(t: Table, mark: nat)
  {
    forall k | k in t && t[k].InodeRecord? :: t[k].node.qidPath < mark
  }

  // ------------------------------------------------------------------ marks

  lemma HeaderWriteKeepsMarks(t: Table, c: Change, q: Request, revision: Revision)
    requires ShapeError(c, q.mutation).None? && Admits(t, c, q) && Touches(c, FilesystemKey)
    requires HeaderAt(t).Some? && c != Delete(FilesystemKey) && !Allocates(c)
    requires c.Replace? && c.record.FilesystemRecord? ==>
      c.record.header.nextCookie == HeaderAt(t).value.nextCookie
      && c.record.header.nextQidPath == HeaderAt(t).value.nextQidPath
    ensures var now := Value(Writes(t, t, c, revision), FilesystemKey);
            now.Some? && now.value.FilesystemRecord?
            && now.value.header.nextCookie == HeaderAt(t).value.nextCookie
            && now.value.header.nextQidPath == HeaderAt(t).value.nextQidPath
  {
  }

  /** While the header persists, each mark moves by exactly the declared advance. */
  lemma MarksAdvance(t: Table, q: Request, revision: Revision, t': Table)
    requires Stepped(t, q, revision, t') && TransitionsOk(Loaded(t, q), q.changes)
    requires DistinctTargets(q.changes)
    requires HeaderAt(t).Some? && Delete(FilesystemKey) !in q.changes
    ensures HeaderAt(t').Some?
    ensures HeaderAt(t').value.nextCookie == HeaderAt(t).value.nextCookie + Declared(q.changes, true)
    ensures HeaderAt(t').value.nextQidPath == HeaderAt(t).value.nextQidPath + Declared(q.changes, false)
  {
    hide TransitionsOk, DistinctTargets, Declared, Guarded;
    DeclaredIs(q.changes, true);
    DeclaredIs(q.changes, false);
    if c :| c in q.changes && Allocates(c) {
      assert HeaderAdvanced(t, q.changes, revision, t');
    } else {
      if c :| c in q.changes && Touches(c, FilesystemKey) {
        NamespaceIsGuarded(t, q, c);
        LoadedReplacementOk(t, q, c);
        HeaderWriteKeepsMarks(t, c, q, revision);
        assert Lookup(t', FilesystemKey) == Value(Writes(t, t, c, revision), FilesystemKey);
      } else {
        assert Lookup(t', FilesystemKey) == Lookup(t, FilesystemKey);
      }
    }
  }

  /** While the header persists the policy generation moves by one exactly when the
      request bumps it. */
  lemma PolicyGenerationMoves(t: Table, q: Request, revision: Revision, t': Table)
    requires Stepped(t, q, revision, t') && TransitionsOk(Loaded(t, q), q.changes)
    requires HeaderAt(t).Some? && Delete(FilesystemKey) !in q.changes
    ensures HeaderAt(t').Some?
    ensures HeaderAt(t').value.policyGeneration ==
            HeaderAt(t).value.policyGeneration + if BumpPolicyGeneration in q.changes then 1 else 0
  {
    hide TransitionsOk, Guarded, Loaded, Writes;
    if c :| c in q.changes && Touches(c, FilesystemKey) && !Allocates(c) {
      NamespaceIsGuarded(t, q, c);
      LoadedReplacementOk(t, q, c);
      HeaderWritePolicy(t, c, q, revision);
      assert Lookup(t', FilesystemKey) == Value(Writes(t, t, c, revision), FilesystemKey);
      if BumpPolicyGeneration in q.changes {
        HeaderWritePolicy(t, BumpPolicyGeneration, q, revision);
        assert Lookup(t', FilesystemKey) == Value(Writes(t, t, BumpPolicyGeneration, revision), FilesystemKey);
      }
    } else {
      assert BumpPolicyGeneration !in q.changes by { assert Touches(BumpPolicyGeneration, FilesystemKey); }
      if c :| c in q.changes && Allocates(c) {
        assert HeaderAdvanced(t, q.changes, revision, t');
      } else {
        assert Lookup(t', FilesystemKey) == Lookup(t, FilesystemKey);
      }
    }
  }

  lemma HeaderWritePolicy(t: Table, c: Change, q: Request, revision: Revision)
    requires ShapeError(c, q.mutation).None? && Admits(t, c, q) && Touches(c, FilesystemKey)
    requires HeaderAt(t).Some? && c != Delete(FilesystemKey) && !Allocates(c)
    requires c.Replace? && c.record.FilesystemRecord? ==>
      c.record.header.policyGeneration == HeaderAt(t).value.policyGeneration
    ensures var now := Value(Writes(t, t, c, revision), FilesystemKey);
            now.Some? && now.value.FilesystemRecord?
            && now.value.header.policyGeneration ==
               HeaderAt(t).value.policyGeneration + if c.BumpPolicyGeneration? then 1 else 0
  {
  }

  predicate AdvancesMark(c: Change, cookies: bool)
  {
    if cookies then c.AdvanceCookie? else c.AdvanceQidPath?
  }

  /** With disjoint targets the declared sum is the one declared count, or zero. */
  lemma {:induction false} DeclaredIs(changes: seq<Change>, cookies: bool)
    requires DistinctTargets(changes)
    ensures forall c | c in changes && AdvancesMark(c, cookies) :: Declared(changes, cookies) == c.count
    ensures (forall c | c in changes :: !AdvancesMark(c, cookies)) ==> Declared(changes, cookies) == 0
    decreases |changes|
  {
    if changes != [] {
      var n := |changes| - 1;
      var done := changes[..n];
      var last := changes[n];
      DistinctPrefix(changes, n);
      DeclaredIs(done, cookies);
      assert forall c :: c in changes <==> c in done || c == last;
      if AdvancesMark(last, cookies) {
        forall c | c in done ensures !AdvancesMark(c, cookies) {
          if AdvancesMark(c, cookies) {
            assert changes == done + [last];
            Apart(done, last, c, FilesystemKey);
          }
        }
      }
    }
  }

  // ---------------------------------------------------------------- cookies

  /** A written entry reuses a stored cookie or was checked against the new mark. */
  lemma EntryWriteCookie(t: Table, loaded: Table, c: Change, q: Request, revision: Revision, k: Key)
    requires ShapeError(c, q.mutation).None? && Admits(t, c, q) && Touches(c, k) && k.EntryKey?
    ensures var now := Value(Writes(t, t, c, revision), k);
            now.Some? && now.value.EntryRecord? ==>
              || (c.MoveEntry? && now.value.entry.cookie == t[SourceKey(c)].entry.cookie)
              || ((c.Insert? || c.Replace?) && c.record.EntryRecord?
                  && now.value.entry.cookie == c.record.entry.cookie)
  {
  }

  lemma CookiesStayBelow(t: Table, q: Request, revision: Revision, depth: nat, t': Table)
    requires Stepped(t, q, revision, t') && TransitionsOk(Loaded(t, q), q.changes)
    requires DistinctTargets(q.changes) && TargetedOk(t', Loaded(t, q), q.changes, depth)
    requires HeaderAt(t).Some? && Delete(FilesystemKey) !in q.changes
    requires CookiesBelow(t, HeaderAt(t).value.nextCookie)
    ensures HeaderAt(t').Some? && CookiesBelow(t', HeaderAt(t').value.nextCookie)
  {
    MarksAdvance(t, q, revision, t');
    forall k | k in t' && t'[k].EntryRecord? ensures t'[k].entry.cookie < HeaderAt(t').value.nextCookie {
      assert Names(t'[k], k);
      if Lookup(t', k) != Lookup(t, k) {
        var c := ChangedEntry(t, q, revision, t', k);
        EntryWriteCookie(t, Loaded(t, q), c, q, revision, k);
        assert WrittenRowOk(t', c);
      }
    }
  }

  /** A cookie at `k` that neither stood there nor is carried over from a freed
      entry lies at or above the old mark, so no state before this one held it. */
  lemma NewCookieIsFresh(t: Table, q: Request, revision: Revision, t': Table, k: Key)
    requires Stepped(t, q, revision, t') && TransitionsOk(Loaded(t, q), q.changes) && HeaderAt(t).Some?
    requires k in t' && t'[k].EntryRecord?
    requires k in t ==> t[k].EntryRecord? && t[k].entry.cookie != t'[k].entry.cookie
    requires !Transfers(Loaded(t, q), q.changes, t'[k].entry)
    ensures t'[k].entry.cookie >= HeaderAt(t).value.nextCookie
  {
    hide TransitionsOk, Guarded, Loaded, Stepped, Writes, Admits;
    RowNamed(t, q, revision, t', k);
    var c := ChangedEntry(t, q, revision, t', k);
    NamespaceIsGuarded(t, q, c);
    var x :| 0 <= x < |q.changes| && q.changes[x] == c;
    CookieTaken(t, q, x);
    SameLinkWritten(t, Loaded(t, q), c, q, revision, k);
  }

  lemma CookieTaken(t: Table, q: Request, x: nat)
    requires TransitionsOk(Loaded(t, q), q.changes) && HeaderAt(t).Some? && Guarded(t, q) && x < |q.changes|
    ensures TakesNextCookie(HeaderAt(t).value, Loaded(t, q), q.changes, x) && KeepsCookie(Loaded(t, q), q.changes[x])
  {
    hide QidPathsOk, MonotonicOk, XattrsOk;
    assert TakesNextCookie(HeaderAt(Loaded(t, q)).value, Loaded(t, q), q.changes, x);
  }

  lemma SameLinkWritten(t: Table, loaded: Table, c: Change, q: Request, revision: Revision, k: Key)
    requires ShapeError(c, q.mutation).None? && Admits(t, c, q) && Touches(c, k) && k.EntryKey?
    requires Lookup(loaded, k) == Lookup(t, k) && KeepsCookie(loaded, c)
    requires k in t ==> t[k].EntryRecord?
    requires Value(Writes(t, t, c, revision), k).Some?
    ensures var e := Value(Writes(t, t, c, revision), k).value;
            e.EntryRecord? &&
            ((c.MoveEntry? && Freed(loaded, c).Some? && SameLink(Freed(loaded, c).value, e.entry))
             || (c.Replace? && k in t && t[k].entry.cookie == e.entry.cookie)
             || (c.Insert? && c.record.EntryRecord? && SameLink(c.record.entry, e.entry)))
  {
  }

  // ---------------------------------------------------------------- QID paths

  /** An inserted or replaced inode below the mark, which unguarded requests are
      not checked for. */
  ghost predicate QidGuard(t: Table, q: Request)
  {
    HeaderAt(t).Some? && (!Guarded(t, q) ==>
      forall c | c in q.changes && (c.Insert? || c.Replace?) && c.record.InodeRecord?
        :: c.record.node.qidPath < HeaderAt(t).value.nextQidPath)
  }

  lemma {:induction false} InsertsCounted(changes: seq<Change>, n: nat)
    requires n <= |changes|
    ensures InodeInserts(changes[..n]) <= InodeInserts(changes)
    decreases |changes| - n
  {
    if n < |changes| {
      assert changes[..n + 1][..n] == changes[..n];
      InsertsCounted(changes, n + 1);
    } else {
      assert changes[..n] == changes;
    }
  }

  lemma InodeWriteQid(t: Table, c: Change, q: Request, revision: Revision, k: Key)
    requires ShapeError(c, q.mutation).None? && Admits(t, c, q) && Touches(c, k) && k.InodeKey?
    requires k in t ==> Names(t[k], k)
    ensures var now := Value(Writes(t, t, c, revision), k);
            now.Some? && now.value.InodeRecord? ==>
              || (k in t && now.value.node.qidPath == t[k].node.qidPath)
              || ((c.Insert? || c.Replace?) && c.record.InodeRecord?
                  && now.value.node.qidPath == c.record.node.qidPath)
    ensures (c.Insert? || c.Replace?) ==> Value(Writes(t, t, c, revision), k) == Some(Stamp(c.record, revision))
  {
  }

  /** A guarded insert takes an identifier from the declared block above the mark. */
  lemma GuardedQid(t: Table, q: Request, c: Change)
    requires TransitionsOk(Loaded(t, q), q.changes) && HeaderAt(t).Some? && Guarded(t, q)
    requires c in q.changes && InsertsInode(c)
    ensures HeaderAt(t).value.nextQidPath <= c.record.node.qidPath
            < HeaderAt(t).value.nextQidPath + Declared(q.changes, false)
  {
    var x :| 0 <= x < |q.changes| && q.changes[x] == c;
    QidTaken(t, q, x);
    hide TransitionsOk, Guarded, Loaded, Declared;
    assert q.changes[..x + 1][..x] == q.changes[..x];
    InsertsCounted(q.changes, x + 1);
  }

  lemma QidTaken(t: Table, q: Request, x: nat)
    requires TransitionsOk(Loaded(t, q), q.changes) && HeaderAt(t).Some? && Guarded(t, q) && x < |q.changes|
    ensures TakesNextQid(HeaderAt(t).value, q.changes, x)
    ensures InodeInserts(q.changes) == Declared(q.changes, false)
  {
    hide CookiesOk, MonotonicOk, XattrsOk;
    assert TakesNextQid(HeaderAt(Loaded(t, q)).value, q.changes, x);
  }

  lemma QidStaysBelow(t: Table, q: Request, revision: Revision, t': Table, k: Key)
    requires Stepped(t, q, revision, t') && TransitionsOk(Loaded(t, q), q.changes)
    requires DistinctTargets(q.changes) && HeaderAt(t).Some? && Delete(FilesystemKey) !in q.changes
    requires QidsBelow(t, HeaderAt(t).value.nextQidPath) && QidGuard(t, q)
    requires k in t' && t'[k].InodeRecord?
    ensures HeaderAt(t').Some? && t'[k].node.qidPath < HeaderAt(t').value.nextQidPath
  {
    hide TransitionsOk, DistinctTargets, Guarded, Writes, Stepped, ShapeError, Loaded;
    MarksAdvance(t, q, revision, t');
    RowNamed(t, q, revision, t', k);
    if c :| c in q.changes && Touches(c, k) {
      ChangeAt(t, q, revision, t', c, k);
      InodeWriteQid(t, c, q, revision, k);
      if Guarded(t, q) && InsertsInode(c) {
        GuardedQid(t, q, c);
      } else if Guarded(t, q) && c.Replace? {
        ReplacedQid(t, q, revision, t', c);
      }
    } else {
      UntouchedKept(t, q, revision, t', k);
    }
  }

  /** A guarded replacement keeps the QID path. */
  lemma ReplacedQid(t: Table, q: Request, revision: Revision, t': Table, c: Change)
    requires Stepped(t, q, revision, t')
    requires TransitionsOk(Loaded(t, q), q.changes) && HeaderAt(t).Some? && Guarded(t, q)
    requires c in q.changes && c.Replace? && c.record.InodeRecord?
    requires c.key in t && t[c.key].InodeRecord?
    ensures c.record.node.qidPath == t[c.key].node.qidPath
  {
    var x :| 0 <= x < |q.changes| && q.changes[x] == c;
    hide Stepped;
    assert KeepsQid(Loaded(t, q), q.changes[x]);
    assert Touches(c, c.key);
    ChangeAt(t, q, revision, t', c, c.key);
  }

  lemma UnguardedKeepsHeader(t: Table, q: Request, revision: Revision, t': Table)
    requires Stepped(t, q, revision, t') && FilesystemKey in t && !Guarded(t, q)
    ensures Lookup(t', FilesystemKey) == Lookup(t, FilesystemKey)
  {
    forall c | c in q.changes ensures !Touches(c, FilesystemKey) {
      if Touches(c, FilesystemKey) {
        NamespaceIsGuarded(t, q, c);
      }
    }
  }

  /** QID paths stay below the mark exactly when an unguarded request brings none
      from above it. */
  lemma QidsBelowIffGuard(t: Table, q: Request, revision: Revision, depth: nat, t': Table)
    requires WellKeyed(t) && Admitted(t, q, revision, depth, t')
    requires HeaderAt(t).Some? && Delete(FilesystemKey) !in q.changes
    requires QidsBelow(t, HeaderAt(t).value.nextQidPath)
    ensures HeaderAt(t').Some?
    ensures QidsBelow(t', HeaderAt(t').value.nextQidPath) <==> QidGuard(t, q)
  {
    hide Admitted, PreflightOk, TransitionsOk, LocksOk, TargetedOk, DistinctTargets, ApplyAll;
    AdmittedSteps(t, q, revision, depth, t');
    AdmittedParts(t, q, revision, depth, t');
    MarksAdvance(t, q, revision, t');
    hide Guarded, Stepped;
    if QidGuard(t, q) {
      forall k | k in t' && t'[k].InodeRecord? ensures t'[k].node.qidPath < HeaderAt(t').value.nextQidPath {
        QidStaysBelow(t, q, revision, t', k);
      }
    } else {
      var c :| c in q.changes && (c.Insert? || c.Replace?) && c.record.InodeRecord?
               && c.record.node.qidPath >= HeaderAt(t).value.nextQidPath;
      UnguardedKeepsHeader(t, q, revision, t');
      StoredQid(t, q, revision, t', c);
    }
  }

  /** An inserted or replaced inode row carries the QID path of its change. */
  lemma StoredQid(t: Table, q: Request, revision: Revision, t': Table, c: Change)
    requires Stepped(t, q, revision, t') && c in q.changes && (c.Insert? || c.Replace?) && c.record.InodeRecord?
    ensures c.key in t' && t'[c.key].InodeRecord? && t'[c.key].node.qidPath == c.record.node.qidPath
  {
    assert Touches(c, c.key);
    assert Lookup(t', c.key) == Value(Writes(t, t, c, revision), c.key);
  }
}
