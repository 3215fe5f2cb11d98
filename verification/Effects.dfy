/** What an applied change list leaves behind, stated over the table before it. */
module Effects {
  import opened Values
  import opened Records
  import opened Requests
  import opened Applying

  function Value(w: Write, k: Key): Option<Record>
  {
    if k in w.written then Some(w.written[k]) else None
  }

  predicate Touched(changes: seq<Change>, k: Key)
  {
    exists c :: c in changes && Touches(c, k)
  }

  /** The loaded rows are true rows, and every row the changes write was loaded. */
  ghost predicate LoadedFrom(t: Table, loaded: Table, changes: seq<Change>)
  {
    && (forall k | k in loaded :: k in t && t[k] == loaded[k])
    && (forall c, k | c in changes && Touches(c, k) :: Lookup(loaded, k) == Lookup(t, k))
  }

  /** The header after its allocators ran. */
  ghost predicate HeaderAdvanced(t: Table, changes: seq<Change>, revision: Revision, t': Table)
  {
    HeaderAt(t).Some? && HeaderAt(t').Some? &&
    var h := HeaderAt(t).value;
    var h' := HeaderAt(t').value;
    && h'.root == h.root && h'.policyGeneration == h.policyGeneration && h'.revision == revision
    && (forall c | c in changes && c.AdvanceCookie? :: h'.nextCookie == h.nextCookie + c.count)
    && (forall c | c in changes && c.AdvanceQidPath? :: h'.nextQidPath == h.nextQidPath + c.count)
    && ((forall c | c in changes :: !c.AdvanceCookie?) ==> h'.nextCookie == h.nextCookie)
    && ((forall c | c in changes :: !c.AdvanceQidPath?) ==> h'.nextQidPath == h.nextQidPath)
  }

  /** `t'` is `t` with every change's effect, each computed from `t` alone. */
  ghost predicate Written(t: Table, changes: seq<Change>, revision: Revision, t': Table)
  {
    && (forall k | !Touched(changes, k) :: Lookup(t', k) == Lookup(t, k))
    && (forall c, k | c in changes && !Allocates(c) && Touches(c, k)
          :: Lookup(t', k) == Value(Writes(t, t, c, revision), k))
    && ((exists c :: c in changes && Allocates(c)) ==> HeaderAdvanced(t, changes, revision, t'))
  }

  // ------------------------------------------------------------- one change

  lemma OverlayAt(t: Table, w: Write, k: Key)
    ensures k in w.written || k in w.removed ==> Lookup(Overlay(t, w), k) == Value(w, k)
    ensures k !in w.written && k !in w.removed ==> Lookup(Overlay(t, w), k) == Lookup(t, k)
  {
  }

  /** An applied change writes exactly the keys it declares. */
  lemma WritesItsTargets(cur: Table, loaded: Table, c: Change, q: Request, revision: Revision)
    requires WellKeyed(cur) && WellKeyed(loaded)
    requires ChangeRefusal(cur, loaded, c, q).None?
    requires Allocates(c) || forall k | Touches(c, k) :: Lookup(cur, k) == Lookup(loaded, k)
    ensures var w := Writes(cur, loaded, c, revision);
            forall k :: (k in w.written || k in w.removed) <==> Touches(c, k)
  {
    var k := PrimaryKey(c);
    assert Touches(c, k) || c.RetainResult?;
    assert k in cur ==> Names(cur[k], k);
    assert k in loaded ==> Names(loaded[k], k);
  }

  lemma WritesWellKeyed(cur: Table, loaded: Table, c: Change, revision: Revision, mutation: MutationContext)
    requires WellKeyed(cur) && WellKeyed(loaded) && ShapeError(c, mutation).None?
    ensures var w := Writes(cur, loaded, c, revision);
            forall k | k in w.written :: Names(w.written[k], k) && RevisionOf(w.written[k]) == revision
  {
  }

  /** Apart from the allocators, the written values depend on the declared keys only. */
  lemma WritesLocal(t: Table, cur: Table, loaded: Table, c: Change, revision: Revision)
    requires !Allocates(c)
    requires forall k | Touches(c, k) :: Lookup(cur, k) == Lookup(t, k) && Lookup(loaded, k) == Lookup(t, k)
    ensures Writes(cur, loaded, c, revision) == Writes(t, t, c, revision)
  {
    assert Touches(c, PrimaryKey(c)) || c.RetainResult?;
  }

  /** The rows after one change. */
  function RowsAfter(cur: Table, loaded: Table, c: Change, revision: Revision): Table
  {
    Overlay(cur, Writes(cur, loaded, c, revision))
  }

  lemma ApplyKeepsKeys(cur: Table, loaded: Table, c: Change, q: Request, revision: Revision)
    requires WellKeyed(cur) && WellKeyed(loaded) && ShapeError(c, q.mutation).None?
    ensures WellKeyed(RowsAfter(cur, loaded, c, revision))
  {
    WritesWellKeyed(cur, loaded, c, revision, q.mutation);
  }

  // ---------------------------------------------------------- the whole list

  /** Members of a disjoint list meet only as the two allocators. */
  lemma Apart(done: seq<Change>, c: Change, d: Change, k: Key)
    requires DistinctTargets(done + [c]) && d in done && Touches(c, k) && Touches(d, k)
    ensures MayShare(d, c, k)
  {
    var x :| 0 <= x < |done| && done[x] == d;
    var all := done + [c];
    assert all[x] == d && all[|done|] == c;
  }

  lemma NextUntouched(t: Table, loaded: Table, done: seq<Change>, c: Change, cur: Table, q: Request,
                      revision: Revision, k: Key)
    requires StepReady(t, loaded, done, c, cur, q, revision)
    requires !Touches(c, k)
    ensures Lookup(RowsAfter(cur, loaded, c, revision), k) == Lookup(cur, k)
  {
    StepWrites(t, loaded, done, c, cur, q, revision);
    OverlayAt(cur, Writes(cur, loaded, c, revision), k);
  }

  /** The situation before the last change of a list. */
  ghost predicate StepFacts(t: Table, loaded: Table, done: seq<Change>, c: Change, cur: Table, revision: Revision)
  {
    && WellKeyed(t) && WellKeyed(cur)
    && LoadedFrom(t, loaded, done + [c])
    && DistinctTargets(done + [c])
    && Written(t, done, revision, cur)
  }

  /** The last change is not refused. */
  ghost predicate StepReady(t: Table, loaded: Table, done: seq<Change>, c: Change, cur: Table,
                            q: Request, revision: Revision)
  {
    StepFacts(t, loaded, done, c, cur, revision) && ChangeRefusal(cur, loaded, c, q).None?
  }

  /** A change that is no allocator still sees the original rows it writes. */
  lemma StillOriginal(t: Table, loaded: Table, done: seq<Change>, c: Change, cur: Table,
                      revision: Revision, k: Key)
    requires StepFacts(t, loaded, done, c, cur, revision)
    requires !Allocates(c) && Touches(c, k)
    ensures Lookup(cur, k) == Lookup(t, k) && Lookup(loaded, k) == Lookup(t, k)
  {
    if Touched(done, k) {
      var d :| d in done && Touches(d, k);
      Apart(done, c, d, k);
    }
    assert c in done + [c];
  }

  lemma StepWrites(t: Table, loaded: Table, done: seq<Change>, c: Change, cur: Table, q: Request,
                   revision: Revision)
    requires StepReady(t, loaded, done, c, cur, q, revision)
    ensures var w := Writes(cur, loaded, c, revision);
            forall k :: (k in w.written || k in w.removed) <==> Touches(c, k)
    ensures !Allocates(c) ==> Writes(cur, loaded, c, revision) == Writes(t, t, c, revision)
  {
    if !Allocates(c) {
      forall k | Touches(c, k)
        ensures Lookup(cur, k) == Lookup(t, k) && Lookup(loaded, k) == Lookup(t, k)
      {
        StillOriginal(t, loaded, done, c, cur, revision, k);
      }
      WritesLocal(t, cur, loaded, c, revision);
    }
    WritesItsTargets(cur, loaded, c, q, revision);
  }

  /** One allocator moves its own counter, from the loaded value. */
  lemma AllocatorWrites(cur: Table, loaded: Table, c: Change, q: Request, revision: Revision)
    requires WellKeyed(cur) && Allocates(c) && ChangeRefusal(cur, loaded, c, q).None?
    ensures HeaderAt(cur).Some? && HeaderAt(loaded).Some?
    ensures var h := HeaderAt(cur).value; var prior := HeaderAt(loaded).value;
            HeaderAt(RowsAfter(cur, loaded, c, revision)) ==
            Some(if c.AdvanceCookie? then h.(nextCookie := prior.nextCookie + c.count, revision := revision)
                 else h.(nextQidPath := prior.nextQidPath + c.count, revision := revision))
  {
    assert Names(cur[FilesystemKey], FilesystemKey);
  }

  /** Before an allocator runs, its own counter still has the loaded value. */
  lemma CounterUnused(t: Table, loaded: Table, done: seq<Change>, c: Change, cur: Table, revision: Revision)
    requires StepFacts(t, loaded, done, c, cur, revision) && Allocates(c)
    ensures forall d | d in done && Allocates(d) :: d.AdvanceCookie? != c.AdvanceCookie?
    ensures (exists d :: d in done && Allocates(d)) || Lookup(cur, FilesystemKey) == Lookup(t, FilesystemKey)
    ensures Lookup(loaded, FilesystemKey) == Lookup(t, FilesystemKey)
  {
    assert Touches(c, FilesystemKey) && c in done + [c];
    forall d | d in done && Touches(d, FilesystemKey)
      ensures Allocates(d) && d.AdvanceCookie? != c.AdvanceCookie?
    {
      Apart(done, c, d, FilesystemKey);
    }
    forall d | d in done && Allocates(d) ensures Touches(d, FilesystemKey) {
    }
  }

  lemma StepHeader(t: Table, loaded: Table, done: seq<Change>, c: Change, cur: Table, q: Request,
                   revision: Revision)
    requires StepReady(t, loaded, done, c, cur, q, revision)
    requires exists d :: d in done + [c] && Allocates(d)
    ensures HeaderAdvanced(t, done + [c], revision, RowsAfter(cur, loaded, c, revision))
  {
    assert forall d :: d in done + [c] <==> d in done || d == c;
    if Allocates(c) {
      CounterUnused(t, loaded, done, c, cur, revision);
      AllocatorWrites(cur, loaded, c, q, revision);
    } else {
      HeaderPassedBy(t, loaded, done, c, cur, q, revision);
    }
  }

  lemma HeaderPassedBy(t: Table, loaded: Table, done: seq<Change>, c: Change, cur: Table, q: Request,
                       revision: Revision)
    requires StepReady(t, loaded, done, c, cur, q, revision) && !Allocates(c)
    requires exists d :: d in done && Allocates(d)
    ensures HeaderAt(RowsAfter(cur, loaded, c, revision)) == HeaderAt(cur)
  {
    hide RowsAfter, Written, LoadedFrom, DistinctTargets, WellKeyed;
    var d :| d in done && Allocates(d);
    assert Touches(d, FilesystemKey);
    if Touches(c, FilesystemKey) {
      Apart(done, c, d, FilesystemKey);
    }
    NextUntouched(t, loaded, done, c, cur, q, revision, FilesystemKey);
  }

  lemma StepWritten(t: Table, loaded: Table, done: seq<Change>, c: Change, cur: Table, q: Request,
                    revision: Revision)
    requires StepReady(t, loaded, done, c, cur, q, revision)
    ensures Written(t, done + [c], revision, RowsAfter(cur, loaded, c, revision))
  {
    var all := done + [c];
    var next := RowsAfter(cur, loaded, c, revision);
    assert c in all && forall d :: d in all <==> d in done || d == c;
    forall k | !Touched(all, k) ensures Lookup(next, k) == Lookup(t, k) {
      assert !Touches(c, k) && !Touched(done, k);
      NextUntouched(t, loaded, done, c, cur, q, revision, k);
    }
    forall d, k | d in all && !Allocates(d) && Touches(d, k)
      ensures Lookup(next, k) == Value(Writes(t, t, d, revision), k)
    {
      if d == c {
        StepWrites(t, loaded, done, c, cur, q, revision);
        OverlayAt(cur, Writes(cur, loaded, c, revision), k);
      } else {
        if Touches(c, k) {
          Apart(done, c, d, k);
        }
        NextUntouched(t, loaded, done, c, cur, q, revision, k);
      }
    }
    if exists d :: d in all && Allocates(d) {
      StepHeader(t, loaded, done, c, cur, q, revision);
    }
  }

  ghost predicate WellShaped(changes: seq<Change>, mutation: MutationContext)
  {
    forall c | c in changes :: ShapeError(c, mutation).None?
  }

  /** What an applied change found in the table before the request. */
  ghost predicate Admits(t: Table, c: Change, q: Request)
  {
    match c
    case Insert(k, _) => k !in t
    case Replace(k, r) =>
      k in t && (t[k].InodeRecord? && r.InodeRecord? ==>
        Content(t[k].node) == Content(r.node) && ContentFile(t[k].node) == ContentFile(r.node)
        && t[k].node.context == r.node.context)
    case Delete(k) => k in t
    case MoveEntry(_, _, e) =>
      SourceKey(c) in t && t[SourceKey(c)].EntryRecord?
      && t[SourceKey(c)].entry.cookie == e.cookie && t[SourceKey(c)].entry.child == e.child
    case RetainResult => true
    case AdvanceCookie(_) => HeaderAt(t).Some?
    case AdvanceQidPath(_) => HeaderAt(t).Some?
    case BumpPolicyGeneration => HeaderAt(t).Some?
    case BumpInodeGeneration(i) => InodeAt(t, i).Some?
    case BumpDirectoryGeneration(i) => IsDirectory(t, i)
    case AdjustLinkCount(i, a) => InodeAt(t, i).Some? && Adjust(a, InodeAt(t, i).value.linkCount).Some?
    case AdjustOpenPinCount(i, a) =>
      OrphanKey(i) in t && t[OrphanKey(i)].OrphanRecord?
      && Adjust(a, t[OrphanKey(i)].orphan.pinCount).Some?
    case BumpLockGeneration(i, l) => LockKey(i, l) in t && t[LockKey(i, l)].LockRecord?
    case PublishContent(p) =>
      InodeAt(t, p.inode).Some? && exists m :: PublicationError(p, q.mutation, InodeAt(t, p.inode).value, m).None?
    case RewrapContentMetadata(r) =>
      ContentMetadataKey(r.file) in t && t[ContentMetadataKey(r.file)].ContentMetadataRecord?
      && t[ContentMetadataKey(r.file)].metadata.keyCommitment.Some?
    case PublishXattrStaging(s, _, _) =>
      XattrStagingKey(s) in t && t[XattrStagingKey(s)].XattrStagingRecord?
  }

  lemma StepAdmits(t: Table, loaded: Table, done: seq<Change>, c: Change, cur: Table, q: Request,
                   revision: Revision)
    requires StepReady(t, loaded, done, c, cur, q, revision)
    ensures Admits(t, c, q)
  {
    if Allocates(c) {
      CounterUnused(t, loaded, done, c, cur, revision);
    } else if !c.RetainResult? {
      var k := PrimaryKey(c);
      assert Touches(c, k);
      StillOriginal(t, loaded, done, c, cur, revision, k);
    }
  }

  /** Main effect theorem: an accepted change list with disjoint targets leaves,
      at every key, the effect of the change declaring it computed from the table
      before the first change. */
  lemma {:induction false} AppliedIsWritten(
      t: Table, loaded: Table, changes: seq<Change>, q: Request, revision: Revision)
    requires WellKeyed(t) && DistinctTargets(changes) && WellShaped(changes, q.mutation)
    requires LoadedFrom(t, loaded, changes)
    requires ApplyAll(t, loaded, changes, q, revision).Done?
    ensures Written(t, changes, revision, ApplyAll(t, loaded, changes, q, revision).table)
    ensures WellKeyed(ApplyAll(t, loaded, changes, q, revision).table)
    ensures forall c | c in changes :: Admits(t, c, q)
    decreases |changes|
  {
    if changes != [] {
      var n := |changes| - 1;
      var done := changes[..n];
      assert changes == done + [changes[n]];
      DistinctPrefix(changes, n);
      AppliedIsWritten(t, loaded, done, q, revision);
      var cur := ApplyAll(t, loaded, done, q, revision).table;
      StepWritten(t, loaded, done, changes[n], cur, q, revision);
      StepAdmits(t, loaded, done, changes[n], cur, q, revision);
      ApplyKeepsKeys(cur, loaded, changes[n], q, revision);
    }
  }

  /** The table a change of an accepted list finds. */
  lemma {:induction false} FoundBy(t: Table, loaded: Table, changes: seq<Change>, q: Request, revision: Revision,
                                   x: nat) returns (cur: Table)
    requires ApplyAll(t, loaded, changes, q, revision).Done? && x < |changes|
    ensures ApplyAll(t, loaded, changes[..x], q, revision) == Done(cur)
    ensures ApplyChange(cur, loaded, changes[x], q, revision).Done?
    decreases |changes|
  {
    hide ApplyChange;
    var done := changes[..|changes| - 1];
    if x < |done| {
      cur := FoundBy(t, loaded, done, q, revision, x);
      assert done[..x] == changes[..x];
    } else {
      cur := ApplyAll(t, loaded, done, q, revision).table;
    }
  }

  // ------------------------------------------------------- consequences

  lemma SameAt(t: Table, xs: seq<Change>, ys: seq<Change>, revision: Revision, a: Table, b: Table, k: Key)
    requires forall c :: c in xs <==> c in ys
    requires Written(t, xs, revision, a) && Written(t, ys, revision, b)
    requires WellKeyed(a) && WellKeyed(b)
    ensures Lookup(a, k) == Lookup(b, k)
  {
    if Touched(xs, k) {
      var c :| c in xs && Touches(c, k);
      if Allocates(c) {
        assert k in a ==> Names(a[k], k);
        assert k in b ==> Names(b[k], k);
        assert c in ys;
        CookieSettled(t, xs, revision, a);
        CookieSettled(t, ys, revision, b);
      }
    }
  }

  lemma CookieSettled(t: Table, changes: seq<Change>, revision: Revision, t': Table)
    requires HeaderAdvanced(t, changes, revision, t')
    ensures (exists c :: c in changes && c.AdvanceCookie?
                && HeaderAt(t').value.nextCookie == HeaderAt(t).value.nextCookie + c.count)
            || ((forall c | c in changes :: !c.AdvanceCookie?)
                && HeaderAt(t').value.nextCookie == HeaderAt(t).value.nextCookie)
    ensures (exists c :: c in changes && c.AdvanceQidPath?
                && HeaderAt(t').value.nextQidPath == HeaderAt(t).value.nextQidPath + c.count)
            || ((forall c | c in changes :: !c.AdvanceQidPath?)
                && HeaderAt(t').value.nextQidPath == HeaderAt(t).value.nextQidPath)
  {
  }

  lemma WrittenDetermines(t: Table, xs: seq<Change>, ys: seq<Change>, revision: Revision, a: Table, b: Table)
    requires forall c :: c in xs <==> c in ys
    requires Written(t, xs, revision, a) && Written(t, ys, revision, b)
    requires WellKeyed(a) && WellKeyed(b)
    ensures a == b
  {
    forall k ensures (k in a <==> k in b) && (k in a ==> a[k] == b[k]) {
      SameAt(t, xs, ys, revision, a, b, k);
    }
  }

  lemma SameMembers(t: Table, loaded: Table, xs: seq<Change>, ys: seq<Change>, mutation: MutationContext)
    requires multiset(xs) == multiset(ys)
    requires WellShaped(xs, mutation) && LoadedFrom(t, loaded, xs)
    ensures forall c :: c in xs <==> c in ys
    ensures WellShaped(ys, mutation) && LoadedFrom(t, loaded, ys)
  {
    forall c ensures c in xs <==> c in ys {
      assert c in xs <==> c in multiset(xs);
      assert c in ys <==> c in multiset(ys);
    }
  }

  lemma TwiceCounted(s: seq<Change>, x: nat, y: nat)
    requires x < y < |s| && s[x] == s[y]
    ensures multiset(s)[s[x]] >= 2
  {
    assert s == s[..y] + [s[y]] + s[y + 1..];
    assert s[..y][x] == s[x];
    assert s[x] in multiset(s[..y]);
  }

  lemma {:induction false} TwicePlaced(s: seq<Change>, c: Change) returns (x: nat, y: nat)
    requires multiset(s)[c] >= 2
    ensures x < y < |s| && s[x] == c && s[y] == c
    decreases |s|
  {
    var n := |s| - 1;
    assert s == s[..n] + [s[n]];
    if s[n] == c {
      assert multiset(s[..n])[c] >= 1;
      assert c in s[..n];
      y := n;
      x :| 0 <= x < n && s[x] == c;
    } else {
      x, y := TwicePlaced(s[..n], c);
    }
  }

  lemma PermutedDistinct(xs: seq<Change>, ys: seq<Change>)
    requires multiset(xs) == multiset(ys) && DistinctTargets(xs)
    ensures DistinctTargets(ys)
  {
    forall c | c in ys ensures c in xs {
      assert c in multiset(ys);
    }
    forall x, y, k | 0 <= x < y < |ys| && Touches(ys[x], k) && Touches(ys[y], k)
      ensures MayShare(ys[x], ys[y], k)
    {
      if ys[x] == ys[y] {
        TwiceCounted(ys, x, y);
        var a, b := TwicePlaced(xs, ys[x]);
      } else {
        assert ys[x] in ys && ys[y] in ys;
        var a :| 0 <= a < |xs| && xs[a] == ys[x];
        var b :| 0 <= b < |xs| && xs[b] == ys[y];
        assert if a < b then MayShare(xs[a], xs[b], k) else MayShare(xs[b], xs[a], k);
      }
    }
    forall x | 0 <= x < |ys| && ys[x].MoveEntry? ensures SourceKey(ys[x]) != DestinationKey(ys[x]) {
      assert ys[x] in xs;
    }
  }

  /** Two accepted orderings of one disjoint change list leave the same table. */
  lemma OrderIndependent(t: Table, loaded: Table, xs: seq<Change>, ys: seq<Change>, q: Request,
                         revision: Revision)
    requires multiset(xs) == multiset(ys)
    requires WellKeyed(t) && WellShaped(xs, q.mutation) && LoadedFrom(t, loaded, xs)
    requires DistinctTargets(xs)
    requires ApplyAll(t, loaded, xs, q, revision).Done? && ApplyAll(t, loaded, ys, q, revision).Done?
    ensures ApplyAll(t, loaded, xs, q, revision) == ApplyAll(t, loaded, ys, q, revision)
  {
    PermutedDistinct(xs, ys);
    SameMembers(t, loaded, xs, ys, q.mutation);
    AppliedIsWritten(t, loaded, xs, q, revision);
    AppliedIsWritten(t, loaded, ys, q, revision);
    WrittenDetermines(t, xs, ys, revision, ApplyAll(t, loaded, xs, q, revision).table,
                      ApplyAll(t, loaded, ys, q, revision).table);
  }

  /** A row a change wrote carries the allocated revision. */
  lemma TouchedIsStamped(t: Table, changes: seq<Change>, mutation: MutationContext, revision: Revision,
                         t': Table, k: Key)
    requires WellKeyed(t) && WellKeyed(t') && WellShaped(changes, mutation)
    requires Written(t, changes, revision, t') && Touched(changes, k) && k in t'
    ensures RevisionOf(t'[k]) == revision
  {
    hide Writes, ShapeError;
    var c :| c in changes && Touches(c, k);
    if Allocates(c) {
      assert k == FilesystemKey && HeaderAdvanced(t, changes, revision, t');
    } else {
      WritesWellKeyed(t, t, c, revision, mutation);
      assert Lookup(t', k) == Value(Writes(t, t, c, revision), k);
    }
  }

  lemma WriteKeepsConstraints(t: Table, w: Write)
    requires ConstraintsHold(t) && !WriteViolates(t, w)
    requires forall j, k | j in w.written && k in w.written :: j == k
    ensures ConstraintsHold(Overlay(t, w))
  {
    var t' := Overlay(t, w);
    var base := t - w.removed;
    forall k | k in w.written ensures !Violates(base, k, w.written[k]) {
    }
    forall j, k | j in t' && k in t' && j != k ensures !SameUnique(t'[j], t'[k]) {
      if k in w.written {
        assert j in base && base[j] == t'[j];
      } else if j in w.written {
        assert k in base && base[k] == t'[k];
        assert !SameUnique(base[k], w.written[j]);
      }
    }
  }

  lemma OneRowWritten(cur: Table, loaded: Table, c: Change, revision: Revision)
    ensures var w := Writes(cur, loaded, c, revision);
            forall j, k | j in w.written && k in w.written :: j == k
  {
  }

  /** CHECK and unique constraints survive every accepted change list. */
  lemma {:induction false} AppliedKeepsConstraints(
      t: Table, loaded: Table, changes: seq<Change>, q: Request, revision: Revision)
    requires ConstraintsHold(t) && ApplyAll(t, loaded, changes, q, revision).Done?
    ensures ConstraintsHold(ApplyAll(t, loaded, changes, q, revision).table)
    decreases |changes|
  {
    if changes != [] {
      var done := changes[..|changes| - 1];
      AppliedKeepsConstraints(t, loaded, done, q, revision);
      var cur := ApplyAll(t, loaded, done, q, revision).table;
      OneRowWritten(cur, loaded, changes[|changes| - 1], revision);
      WriteKeepsConstraints(cur, Writes(cur, loaded, changes[|changes| - 1], revision));
    }
  }

  /** The apply loop of `execute_once`. */
  method ApplyChanges(t: Table, loaded: Table, q: Request, revision: Revision) returns (r: Applied)
    ensures r == ApplyAll(t, loaded, q.changes, q, revision)
    ensures r.Done? && WellKeyed(t) && DistinctTargets(q.changes) && WellShaped(q.changes, q.mutation)
            && LoadedFrom(t, loaded, q.changes)
            ==> WellKeyed(r.table) && Written(t, q.changes, revision, r.table)
  {
    hide ApplyChange, WellKeyed, DistinctTargets, WellShaped, LoadedFrom, Written, Admits;
    r := Done(t);
    var i := 0;
    while i < |q.changes| && r.Done?
      invariant 0 <= i <= |q.changes|
      invariant r.Done? ==> r == ApplyAll(t, loaded, q.changes[..i], q, revision)
      invariant r.Refused? ==> r == ApplyAll(t, loaded, q.changes, q, revision)
    {
      r := ApplyChange(r.table, loaded, q.changes[i], q, revision);
      assert q.changes[..i + 1][..i] == q.changes[..i];
      if r.Refused? {
        RefusalIsFinal(t, loaded, q.changes, q, revision, i + 1);
      }
      i := i + 1;
    }
    assert q.changes[..|q.changes|] == q.changes;
    if r.Done? && WellKeyed(t) && DistinctTargets(q.changes) && WellShaped(q.changes, q.mutation)
       && LoadedFrom(t, loaded, q.changes) {
      AppliedIsWritten(t, loaded, q.changes, q, revision);
    }
  }

  lemma {:induction false} RefusalIsFinal(
      t: Table, loaded: Table, changes: seq<Change>, q: Request, revision: Revision, n: nat)
    requires n <= |changes| && ApplyAll(t, loaded, changes[..n], q, revision).Refused?
    ensures ApplyAll(t, loaded, changes, q, revision) == ApplyAll(t, loaded, changes[..n], q, revision)
    decreases |changes| - n
  {
    if n < |changes| {
      assert changes[..n + 1][..n] == changes[..n];
      RefusalIsFinal(t, loaded, changes, q, revision, n + 1);
    } else {
      assert changes[..n] == changes;
    }
  }
}
