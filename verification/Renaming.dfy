/** The planner's rename of a directory into another directory, and when the store
    admits it (crates/w9pt-fs/src/operations/rename.rs:299-389, 505-554, 639-693). */
module Renaming {
  import opened Values
  import opened Records
  import opened Requests
  import opened Applying
  import opened Effects
  import opened Loading
  import opened Transitions
  import opened LockTable
  import opened Targeting
  import opened Admission
  import opened Namespace
  import opened Accounting
  import opened WholeImage

  /** Directory `moved` goes from `name` in `source` to `newName` in `target`. */
  datatype Rename = Rename(
    source: InodeId, name: Bytes, target: InodeId, newName: Bytes, moved: InodeId, now: int)

  function Node(t: Table, i: InodeId): Inode
    requires IsDirectory(t, i)
  {
    InodeAt(t, i).value
  }

  function From(r: Rename): Key
  {
    EntryKey(r.source, r.name)
  }

  function To(r: Rename): Key
  {
    EntryKey(r.target, r.newName)
  }

  predicate Live(t: Table, root: InodeId, i: InodeId)
  {
    IsDirectory(t, i) && (i == root || Node(t, i).linkCount != 0)
  }

  /** What the planner has read and checked: the entry and the three directories, a live
      target without the new name, and counters that can advance. */
  predicate Movable(t: Table, r: Rename)
  {
    && HeaderAt(t).Some? && r.source != r.target
    && IsDirectory(t, r.source) && IsDirectory(t, r.moved) && Live(t, HeaderAt(t).value.root, r.target)
    && From(r) in t && t[From(r)].EntryRecord? && t[From(r)].entry.child == r.moved
    && To(r) !in t && ComponentAllowed(r.newName)
    && Node(t, r.source).inodeGeneration < U64_MAX && Node(t, r.source).data.generation < U64_MAX
    && Node(t, r.target).inodeGeneration < U64_MAX && Node(t, r.target).data.generation < U64_MAX
    && Node(t, r.moved).inodeGeneration < U64_MAX
  }

  /** The row with the next inode generation and new times; its revision is a placeholder. */
  function Rebuilt(n: Inode, now: int, data: InodeData): Inode
  {
    n.(attributes := n.attributes.(times := n.attributes.times.(modified := now, changed := now)),
       inodeGeneration := n.inodeGeneration + 1, revision := 1, data := data)
  }

  function UpdatedParent(n: Inode, now: int): Inode
    requires n.data.DirectoryData?
  {
    Rebuilt(n, now, DirectoryData(n.data.generation + 1, n.data.parent))
  }

  function MovedDirectory(n: Inode, parent: InodeId, now: int): Inode
    requires n.data.DirectoryData?
  {
    Rebuilt(n, now, DirectoryData(n.data.generation, parent))
  }

  function MovedEntry(t: Table, r: Rename): Entry
    requires Movable(t, r)
  {
    Entry(r.target, r.newName, t[From(r)].entry.cookie, r.moved, 1)
  }

  /** The changes of the request. */
  function RenameChanges(t: Table, r: Rename): seq<Change>
    requires Movable(t, r)
  {
    [MoveEntry(r.source, r.name, MovedEntry(t, r)),
     Replace(InodeKey(r.source), InodeRecord(UpdatedParent(Node(t, r.source), r.now))),
     Replace(InodeKey(r.target), InodeRecord(UpdatedParent(Node(t, r.target), r.now))),
     Replace(InodeKey(r.moved), InodeRecord(MovedDirectory(Node(t, r.moved), r.target, r.now)))]
  }

  // --------------------------------------------------------- the ancestor walk

  /** From `i` the parents lead to the root within `depth` edges without meeting `x`. */
  predicate Clear(t: Table, i: InodeId, x: InodeId, root: InodeId, depth: nat)
    decreases depth
  {
    i != x && (i == root || (depth > 0 && IsDirectory(t, i) && Clear(t, Node(t, i).data.parent, x, root, depth - 1)))
  }

  /** The revisions of the directories from `i` up to the root, without the root. */
  function Lineage(t: Table, i: InodeId, root: InodeId, depth: nat): seq<Precondition>
    decreases depth
  {
    if i == root || depth == 0 || !IsDirectory(t, i) then []
    else [RecordRevision(InodeKey(i), Node(t, i).revision)] + Lineage(t, Node(t, i).data.parent, root, depth - 1)
  }

  /** The lineage is true of the table it was read from. */
  lemma {:induction false} LineageIsTrue(t: Table, i: InodeId, root: InodeId, depth: nat, p: Precondition, q: Request)
    requires p in Lineage(t, i, root, depth)
    ensures Meaning(p, t, q) && p.RecordRevision? && p.key.InodeKey?
    decreases depth
  {
    if p != RecordRevision(InodeKey(i), Node(t, i).revision) {
      LineageIsTrue(t, Node(t, i).data.parent, root, depth - 1, p, q);
    }
  }

  lemma LineageStep(t: Table, i: InodeId, x: InodeId, root: InodeId, depth: nat, passed: seq<Precondition>)
    requires i != x && i != root && IsDirectory(t, i) && depth > 0
    ensures Clear(t, i, x, root, depth) <==> Clear(t, Node(t, i).data.parent, x, root, depth - 1)
    ensures passed + Lineage(t, i, root, depth)
            == (passed + [RecordRevision(InodeKey(i), Node(t, i).revision)])
               + Lineage(t, Node(t, i).data.parent, root, depth - 1)
  {
  }

  lemma LineageEnds(t: Table, i: InodeId, x: InodeId, root: InodeId, depth: nat)
    ensures i == x ==> !Clear(t, i, x, root, depth)
    ensures i != x && i == root ==> Clear(t, i, x, root, depth) && Lineage(t, i, root, depth) == []
    ensures i != root && (depth == 0 || !IsDirectory(t, i)) ==> !Clear(t, i, x, root, depth)
  {
  }

  /** `ancestor_preconditions`: it answers exactly when the way to the root is clear, and
      then states the revision of every directory it passed. */
  method WalkAncestors(t: Table, target: InodeId, moved: InodeId, root: InodeId, maximum: nat)
    returns (stated: Option<seq<Precondition>>)
    ensures stated.Some? <==> Clear(t, target, moved, root, maximum)
    ensures stated.Some? ==> stated.value == Lineage(t, target, root, maximum)
  {
    hide Clear, Lineage;
    var current := target;
    var passed: seq<Precondition> := [];
    for depth := 0 to maximum
      invariant Clear(t, target, moved, root, maximum) <==> Clear(t, current, moved, root, maximum - depth)
      invariant Lineage(t, target, root, maximum) == passed + Lineage(t, current, root, maximum - depth)
    {
      LineageEnds(t, current, moved, root, maximum - depth);
      if current == moved {
        return None;
      }
      if current == root {
        return Some(passed);
      }
      if !IsDirectory(t, current) {
        return None;
      }
      LineageStep(t, current, moved, root, maximum - depth, passed);
      passed := passed + [RecordRevision(InodeKey(current), Node(t, current).revision)];
      current := Node(t, current).data.parent;
    }
    LineageEnds(t, current, moved, root, 0);
    return if current != moved && current == root then Some(passed) else None;
  }

  // -------------------------------------------------------- around the entry

  lemma OnlyOne(s: set<Key>, k: Key)
    requires |s| == 1 && k in s
    ensures s == {k}
  {
    assert |s - {k}| == 0;
  }

  /** In a tree the moved directory sits under the source, by this entry alone, and the
      source is live. */
  lemma MovedFromSource(t: Table, r: Rename)
    requires WellKeyed(t) && Tree(t) && Movable(t, r)
    ensures var root := HeaderAt(t).value.root;
            && r.moved != r.source && r.moved != root && Live(t, root, r.source)
            && Node(t, r.moved).id == r.moved && Node(t, r.moved).linkCount != 0
            && Node(t, r.moved).data.parent == r.source && EntriesTo(t, r.moved) == {From(r)}
  {
    var root := HeaderAt(t).value.root;
    InodeRow(t, r.moved);
    InodeRow(t, r.source);
    assert From(r) in EntriesTo(t, r.moved) && From(r) in EntriesIn(t, r.source);
    assert NodePlaced(t, root, Node(t, r.moved));
    OnlyOne(EntriesTo(t, r.moved), From(r));
    assert r.source == root || NodePlaced(t, root, Node(t, r.source));
    if r.moved == r.source {
      var depth: nat :| Ancestry(t, r.moved, root, depth);
      ClosedSetNeverReaches(t, {r.moved}, r.moved, root, depth);
    }
  }

  /** The three directories of the request are different. */
  predicate Apart3(r: Rename)
  {
    r.source != r.target && r.moved != r.source && r.moved != r.target
  }

  /** Where the changes of the request write. */
  lemma RenameTouches(t: Table, r: Rename, x: nat, k: Key)
    requires Movable(t, r) && x < 4
    ensures Touches(RenameChanges(t, r)[x], k) <==>
      if x == 0 then k == From(r) || k == To(r)
      else k == InodeKey(if x == 1 then r.source else if x == 2 then r.target else r.moved)
  {
    var c := RenameChanges(t, r)[x];
    if x == 0 {
      assert Affected(c) == [From(r), To(r)];
    } else {
      assert Affected(c) == [PrimaryKey(c)];
    }
  }

  lemma RenameDistinct(t: Table, r: Rename)
    requires Movable(t, r)
    ensures Apart3(r) ==> DistinctTargets(RenameChanges(t, r))
    ensures r.moved == r.target ==> !DistinctTargets(RenameChanges(t, r))
  {
    var c := RenameChanges(t, r);
    hide Touches, RenameChanges;
    forall x: nat, k | x < 4
      ensures Touches(c[x], k) <==>
        if x == 0 then k == From(r) || k == To(r)
        else k == InodeKey(if x == 1 then r.source else if x == 2 then r.target else r.moved)
    {
      RenameTouches(t, r, x, k);
    }
    if r.moved == r.target {
      assert Touches(c[2], InodeKey(r.target)) && Touches(c[3], InodeKey(r.target));
      assert !MayShare(c[2], c[3], InodeKey(r.target));
    }
  }

  lemma RenameShapes(t: Table, r: Rename, m: MutationContext)
    requires WellKeyed(t) && Movable(t, r)
    ensures WellShaped(RenameChanges(t, r), m) && ContentPaired(RenameChanges(t, r))
  {
    InodeRow(t, r.source);
    InodeRow(t, r.target);
    InodeRow(t, r.moved);
  }

  lemma RenamePreflight(t: Table, r: Rename, q: Request)
    requires WellKeyed(t) && Movable(t, r) && q.changes == RenameChanges(t, r)
    ensures Apart3(r) ==> PreflightOk(q)
    ensures r.moved == r.target ==> !PreflightOk(q)
  {
    hide DistinctTargets, ContentPaired;
    RenameDistinct(t, r);
    RenameShapes(t, r, q.mutation);
  }

  // ------------------------------------------------------------- transitions

  lemma RenameCookies(t: Table, r: Rename)
    requires WellKeyed(t) && Movable(t, r)
    ensures CookiesOk(t, RenameChanges(t, r)) && QidPathsOk(t, RenameChanges(t, r)) && XattrsOk(t, RenameChanges(t, r))
  {
    var c := RenameChanges(t, r);
    forall x: nat | x < 4 ensures !NeedsCookie(t, c, c[x]) && !InsertsInode(c[x]) && !c[x].AdvanceCookie?
                          && !c[x].AdvanceQidPath? && KeepsCookie(t, c[x]) && KeepsQid(t, c[x]) {
    }
    assert c[..4] == c && c[..4][..3] == c[..3] && c[..3][..2] == c[..2] && c[..2][..1] == c[..1] && c[..1][..0] == [];
    NoneDeclared(c);
    NoneNew(t, c, 4);
  }

  lemma {:induction false} NoneDeclared(changes: seq<Change>)
    requires forall x | 0 <= x < |changes| ::
      !InsertsInode(changes[x]) && !changes[x].AdvanceCookie? && !changes[x].AdvanceQidPath?
    ensures Declared(changes, true) == 0 == Declared(changes, false) && InodeInserts(changes) == 0
    decreases |changes|
  {
    if changes != [] {
      NoneDeclared(changes[..|changes| - 1]);
    }
  }

  lemma {:induction false} NoneNew(t: Table, changes: seq<Change>, n: nat)
    requires n <= |changes| && forall x | 0 <= x < |changes| :: !NeedsCookie(t, changes, changes[x])
    ensures NewCookies(t, changes, n) == 0
  {
    if n > 0 {
      NoneNew(t, changes, n - 1);
    }
  }

  lemma RenameParents(t: Table, r: Rename)
    requires Movable(t, r)
    ensures Parents(t, RenameChanges(t, r)) == {r.source, r.target}
  {
    var c := RenameChanges(t, r);
    forall p ensures p in Parents(t, c) <==> p == r.source || p == r.target {
      ParentsAre(t, c, p);
      assert Renames(t, c[0], p) <==> p == r.source || p == r.target;
    }
  }

  lemma RenameMonotonic(t: Table, r: Rename)
    requires WellKeyed(t) && Movable(t, r) && Apart3(r) && Node(t, r.moved).data.parent == r.source
    ensures MonotonicOk(t, RenameChanges(t, r))
  {
    var c := RenameChanges(t, r);
    RenameParents(t, r);
    hide Parents;
    InodeRow(t, r.source);
    InodeRow(t, r.target);
    InodeRow(t, r.moved);
    assert AdvancesDirectory(t, c[1], r.source) && AdvancesDirectory(t, c[2], r.target);
    assert Freed(t, c[0]) == Some(t[From(r)].entry);
    assert ParentChangeOk(t, c, Node(t, r.moved), c[3].record.node);
    forall d | d in c ensures ReplacementOk(t, c, Parents(t, c), d) {
    }
  }

  lemma RenameLocks(t: Table, r: Rename)
    requires Movable(t, r)
    ensures LocksOk(t, RenameChanges(t, r))
  {
    assert forall c | c in RenameChanges(t, r) :: FinalLock(c).None?;
  }

  /** A guarded request's transitions may be judged on the whole table. */
  lemma LoadedTransitions(t: Table, q: Request)
    requires TransitionsOk(t, q.changes) && LoadedFrom(t, Loaded(t, q), q.changes) && Guarded(t, q)
    ensures TransitionsOk(Loaded(t, q), q.changes)
  {
    hide TransitionsOk;
    TransitionsAgree(t, Loaded(t, q), q.changes);
  }

  lemma RenameTransitions(t: Table, r: Rename, q: Request)
    requires WellKeyed(t) && Movable(t, r) && Apart3(r) && Node(t, r.moved).data.parent == r.source
    requires q.changes == RenameChanges(t, r)
    ensures TransitionsOk(Loaded(t, q), q.changes) && LocksOk(t, q.changes) && LoadedFrom(t, Loaded(t, q), q.changes)
  {
    hide CookiesOk, QidPathsOk, MonotonicOk, XattrsOk, WellShaped, LocksOk, Loaded, LoadedFrom, ContentPaired;
    RenameCookies(t, r);
    RenameMonotonic(t, r);
    RenameShapes(t, r, q.mutation);
    RenameLocks(t, r);
    LoadedCoversTargets(t, q);
    assert NamespaceChange(q.changes[0]);
    NamespaceIsGuarded(t, q, q.changes[0]);
    LoadedTransitions(t, q);
  }

  // -------------------------------------------------------------- applying

  /** Every inode row has the QID path it has in `t`. */
  ghost predicate QidsOf(t: Table, cur: Table)
  {
    forall k | k in cur && cur[k].InodeRecord? ::
      k in t && t[k].InodeRecord? && t[k].node.qidPath == cur[k].node.qidPath
  }

  /** The directory row of `i` in `t` and a row that may replace it. */
  ghost predicate Replaceable(t: Table, i: InodeId, n: Inode)
  {
    && IsDirectory(t, i) && n.data.DirectoryData? && n.qidPath == Node(t, i).qidPath
    && n.context == Node(t, i).context && SchemaAllows(InodeRecord(n))
  }

  lemma ReplaceApplies(t: Table, cur: Table, loaded: Table, i: InodeId, n: Inode, q: Request, revision: Revision)
    requires ConstraintsHold(t) && QidsOf(t, cur) && Replaceable(t, i, n) && InodeKey(i) in cur
    requires Lookup(loaded, InodeKey(i)) == Lookup(t, InodeKey(i))
    ensures var k := InodeKey(i);
            var next := cur[k := InodeRecord(n.(revision := revision))];
            ApplyChange(cur, loaded, Replace(k, InodeRecord(n)), q, revision) == Done(next) && QidsOf(t, next)
  {
    var k := InodeKey(i);
    var c := Replace(k, InodeRecord(n));
    var w := Writes(cur, loaded, c, revision);
    var row := InodeRecord(n.(revision := revision));
    assert w == Write({}, map[k := row]);
    assert cur - {} == cur;
    forall j | j in cur && j != k ensures !SameUnique(cur[j], row) {
      if cur[j].InodeRecord? {
        assert !SameUnique(t[j], t[k]);
      }
    }
    assert SchemaAllows(row);
    assert ChangeRefusal(cur, loaded, c, q).None?;
    assert Overlay(cur, w) == cur[k := row];
  }

  /** No entry of the target has the cookie of the moved one. */
  ghost predicate CookieFree(t: Table, r: Rename)
    requires Movable(t, r)
  {
    forall k | k in t && k.EntryKey? && k.parent == r.target && t[k].EntryRecord?
      :: t[k].entry.cookie != t[From(r)].entry.cookie
  }

  function AfterMove(t: Table, r: Rename, revision: Revision): Table
    requires Movable(t, r)
  {
    (t - {From(r)})[To(r) := MovedRow(t, r, revision)]
  }

  /** The row the move writes. */
  function MovedRow(t: Table, r: Rename, revision: Revision): Record
    requires Movable(t, r)
  {
    EntryRecord(MovedEntry(t, r).(revision := revision))
  }

  lemma MoveWrites(t: Table, loaded: Table, r: Rename, q: Request, revision: Revision)
    requires Movable(t, r)
    requires Lookup(loaded, From(r)) == Lookup(t, From(r)) && Lookup(loaded, To(r)) == Lookup(t, To(r))
    ensures var c := RenameChanges(t, r)[0];
            && ChangeRefusal(t, loaded, c, q).None?
            && Writes(t, loaded, c, revision) == Write({From(r)}, map[To(r) := MovedRow(t, r, revision)])
  {
    var c := RenameChanges(t, r)[0];
    assert SourceKey(c) == From(r) && DestinationKey(c) == To(r);
  }

  lemma MovedRowAllowed(t: Table, r: Rename, revision: Revision)
    requires ConstraintsHold(t) && Movable(t, r)
    ensures SchemaAllows(MovedRow(t, r, revision))
  {
    assert SchemaAllows(t[From(r)]);
  }

  lemma MovedRowShares(t: Table, r: Rename, revision: Revision, j: Key)
    requires WellKeyed(t) && Movable(t, r) && j in t
    ensures SameUnique(t[j], MovedRow(t, r, revision)) <==>
      j.EntryKey? && j.parent == r.target && t[j].EntryRecord? && t[j].entry.cookie == t[From(r)].entry.cookie
  {
    assert Names(t[j], j);
  }

  /** The unique constraint on the cookies of a directory decides about the move. */
  lemma MoveFits(t: Table, r: Rename, revision: Revision)
    requires WellKeyed(t) && ConstraintsHold(t) && Movable(t, r)
    ensures WriteViolates(t, Write({From(r)}, map[To(r) := MovedRow(t, r, revision)])) <==> !CookieFree(t, r)
  {
    hide SameUnique, SchemaAllows, WellKeyed, ConstraintsHold;
    var w := Write({From(r)}, map[To(r) := MovedRow(t, r, revision)]);
    MovedRowAllowed(t, r, revision);
    forall j | j in t
      ensures SameUnique(t[j], MovedRow(t, r, revision)) <==>
        j.EntryKey? && j.parent == r.target && t[j].EntryRecord? && t[j].entry.cookie == t[From(r)].entry.cookie
    {
      MovedRowShares(t, r, revision, j);
    }
    if !CookieFree(t, r) {
      var k :| k in t && k.EntryKey? && k.parent == r.target && t[k].EntryRecord?
               && t[k].entry.cookie == t[From(r)].entry.cookie;
      assert k in t - w.removed && k != To(r) && SameUnique((t - w.removed)[k], w.written[To(r)]);
      assert To(r) in w.written && Violates(t - w.removed, To(r), w.written[To(r)]);
    }
  }

  lemma MoveApplies(t: Table, loaded: Table, r: Rename, q: Request, revision: Revision)
    requires WellKeyed(t) && ConstraintsHold(t) && Movable(t, r)
    requires Lookup(loaded, From(r)) == Lookup(t, From(r)) && Lookup(loaded, To(r)) == Lookup(t, To(r))
    ensures var a := ApplyChange(t, loaded, RenameChanges(t, r)[0], q, revision);
            if CookieFree(t, r) then a == Done(AfterMove(t, r, revision)) else a.Refused?
  {
    hide WellKeyed, ConstraintsHold, ChangeRefusal, Writes, WriteViolates, CookieFree, RenameChanges, Movable;
    MoveWrites(t, loaded, r, q, revision);
    MoveFits(t, r, revision);
    assert Overlay(t, Write({From(r)}, map[To(r) := MovedRow(t, r, revision)])) == AfterMove(t, r, revision);
  }

  lemma MoveKeepsQids(t: Table, r: Rename, revision: Revision)
    requires Movable(t, r)
    ensures QidsOf(t, AfterMove(t, r, revision))
    ensures forall i | IsDirectory(t, i) :: InodeKey(i) in AfterMove(t, r, revision)
  {
  }

  /** The table after the rename. */
  function Renamed(t: Table, r: Rename, revision: Revision): Table
    requires Movable(t, r)
  {
    Put3(AfterMove(t, r, revision), r, UpdatedParent(Node(t, r.source), r.now),
         UpdatedParent(Node(t, r.target), r.now), MovedDirectory(Node(t, r.moved), r.target, r.now), revision)
  }

  lemma RowsReplaceable(t: Table, r: Rename)
    requires ConstraintsHold(t) && Movable(t, r)
    ensures Replaceable(t, r.source, UpdatedParent(Node(t, r.source), r.now))
    ensures Replaceable(t, r.target, UpdatedParent(Node(t, r.target), r.now))
    ensures Replaceable(t, r.moved, MovedDirectory(Node(t, r.moved), r.target, r.now))
  {
    assert SchemaAllows(t[InodeKey(r.source)]) && SchemaAllows(t[InodeKey(r.target)]);
    assert SchemaAllows(t[InodeKey(r.moved)]);
  }

  /** A list is applied change by change. */
  lemma ApplyNext(t: Table, loaded: Table, changes: seq<Change>, n: nat, q: Request, revision: Revision)
    requires n < |changes|
    ensures ApplyAll(t, loaded, changes[..n + 1], q, revision) ==
            match ApplyAll(t, loaded, changes[..n], q, revision)
            case Done(cur) => ApplyChange(cur, loaded, changes[n], q, revision)
            case Refused(why) => Refused(why)
  {
    assert changes[..n + 1][..n] == changes[..n];
  }

  lemma ApplyFour(t: Table, loaded: Table, c: seq<Change>, q: Request, revision: Revision, t1: Table, t2: Table,
                  t3: Table, t4: Table)
    requires |c| == 4
    requires ApplyChange(t, loaded, c[0], q, revision) == Done(t1)
    requires ApplyChange(t1, loaded, c[1], q, revision) == Done(t2)
    requires ApplyChange(t2, loaded, c[2], q, revision) == Done(t3)
    requires ApplyChange(t3, loaded, c[3], q, revision) == Done(t4)
    ensures ApplyAll(t, loaded, c, q, revision) == Done(t4)
  {
    assert c[..4] == c && c[..0] == [] && ApplyAll(t, loaded, c[..0], q, revision) == Done(t);
    hide ApplyAll, ApplyChange;
    ApplyNext(t, loaded, c, 0, q, revision);
    ApplyNext(t, loaded, c, 1, q, revision);
    ApplyNext(t, loaded, c, 2, q, revision);
    ApplyNext(t, loaded, c, 3, q, revision);
  }

  lemma {:induction false} RefusedAtOnce(t: Table, loaded: Table, c: seq<Change>, n: nat, q: Request,
                                         revision: Revision)
    requires 0 < n <= |c| && ApplyChange(t, loaded, c[0], q, revision).Refused?
    ensures ApplyAll(t, loaded, c[..n], q, revision).Refused?
    decreases n
  {
    hide ApplyChange;
    if n == 1 {
      assert c[..1][..0] == [] && ApplyAll(t, loaded, [], q, revision) == Done(t);
    } else {
      RefusedAtOnce(t, loaded, c, n - 1, q, revision);
      ApplyNext(t, loaded, c, n - 1, q, revision);
    }
  }

  function Put3(t: Table, r: Rename, a: Inode, b: Inode, c: Inode, revision: Revision): Table
  {
    t[InodeKey(r.source) := InodeRecord(a.(revision := revision))]
     [InodeKey(r.target) := InodeRecord(b.(revision := revision))]
     [InodeKey(r.moved) := InodeRecord(c.(revision := revision))]
  }

  /** The three replacements apply one after the other. */
  lemma RowsApply(t: Table, loaded: Table, r: Rename, changes: seq<Change>, a: Inode, b: Inode, c: Inode, t1: Table,
                  q: Request, revision: Revision)
    requires ConstraintsHold(t) && QidsOf(t, t1)
    requires Replaceable(t, r.source, a) && Replaceable(t, r.target, b) && Replaceable(t, r.moved, c)
    requires forall i | i == r.source || i == r.target || i == r.moved ::
      Lookup(loaded, InodeKey(i)) == Lookup(t, InodeKey(i)) && InodeKey(i) in t1
    requires |changes| == 4 && changes[1..] == [Replace(InodeKey(r.source), InodeRecord(a)),
                                                Replace(InodeKey(r.target), InodeRecord(b)),
                                                Replace(InodeKey(r.moved), InodeRecord(c))]
    requires ApplyChange(t, loaded, changes[0], q, revision) == Done(t1)
    ensures ApplyAll(t, loaded, changes, q, revision) == Done(Put3(t1, r, a, b, c, revision))
  {
    hide ApplyAll, ApplyChange, ConstraintsHold, Replaceable, QidsOf;
    assert changes[1] == changes[1..][0] && changes[2] == changes[1..][1] && changes[3] == changes[1..][2];
    ReplaceApplies(t, t1, loaded, r.source, a, q, revision);
    var t2 := t1[InodeKey(r.source) := InodeRecord(a.(revision := revision))];
    ReplaceApplies(t, t2, loaded, r.target, b, q, revision);
    var t3 := t2[InodeKey(r.target) := InodeRecord(b.(revision := revision))];
    ReplaceApplies(t, t3, loaded, r.moved, c, q, revision);
    ApplyFour(t, loaded, changes, q, revision, t1, t2, t3, Put3(t1, r, a, b, c, revision));
  }

  /** The changes apply, to the table above, exactly when the cookie is free. */
  lemma RenameApplies(t: Table, loaded: Table, r: Rename, q: Request, revision: Revision)
    requires WellKeyed(t) && ConstraintsHold(t) && Movable(t, r)
    requires LoadedFrom(t, loaded, RenameChanges(t, r))
    ensures var a := ApplyAll(t, loaded, RenameChanges(t, r), q, revision);
            if CookieFree(t, r) then a == Done(Renamed(t, r, revision)) else a.Refused?
  {
    hide ApplyAll, ApplyChange, LoadedFrom, ConstraintsHold, WellKeyed, CookieFree, Replaceable, QidsOf, AfterMove;
    RenameLoaded(t, loaded, r);
    MoveApplies(t, loaded, r, q, revision);
    if CookieFree(t, r) {
      RowsReplaceable(t, r);
      MoveKeepsQids(t, r, revision);
      RowsApply(t, loaded, r, RenameChanges(t, r), UpdatedParent(Node(t, r.source), r.now),
                UpdatedParent(Node(t, r.target), r.now), MovedDirectory(Node(t, r.moved), r.target, r.now),
                AfterMove(t, r, revision), q, revision);
    } else {
      RefusedAtOnce(t, loaded, RenameChanges(t, r), 4, q, revision);
      assert RenameChanges(t, r)[..4] == RenameChanges(t, r);
    }
  }

  lemma RenameLoaded(t: Table, loaded: Table, r: Rename)
    requires Movable(t, r) && LoadedFrom(t, loaded, RenameChanges(t, r))
    ensures Lookup(loaded, From(r)) == Lookup(t, From(r)) && Lookup(loaded, To(r)) == Lookup(t, To(r))
    ensures forall i | i == r.source || i == r.target || i == r.moved ::
      Lookup(loaded, InodeKey(i)) == Lookup(t, InodeKey(i))
  {
    var c := RenameChanges(t, r);
    RenameTouches(t, r, 0, From(r));
    RenameTouches(t, r, 0, To(r));
    RenameTouches(t, r, 1, InodeKey(r.source));
    RenameTouches(t, r, 2, InodeKey(r.target));
    RenameTouches(t, r, 3, InodeKey(r.moved));
    assert c[0] in c && c[1] in c && c[2] in c && c[3] in c;
  }

  // ---------------------------------------------------------- the new table

  /** What the rename leaves: the directories with their link counts, the moved one under
      the target, the moved entry, and every other name, orphan and pin. */
  ghost predicate Moves(t: Table, r: Rename, t': Table)
    requires Movable(t, r)
  {
    && HeaderAt(t') == HeaderAt(t)
    && (forall i | IsDirectory(t, i) :: DirectoryKept(t, r, t', i))
    && (forall k: Key | k.EntryKey? && k != From(r) && k != To(r) :: Lookup(t', k) == Lookup(t, k))
    && From(r) !in t' && To(r) in t' && t'[To(r)].EntryRecord? && t'[To(r)].entry.child == r.moved
    && (forall k: Key | k.OrphanKey? || k.OpenPinKey? :: Lookup(t', k) == Lookup(t, k))
  }

  predicate DirectoryKept(t: Table, r: Rename, t': Table, i: InodeId)
    requires IsDirectory(t, i)
  {
    && IsDirectory(t', i) && Node(t', i).id == Node(t, i).id && Node(t', i).linkCount == Node(t, i).linkCount
    && Node(t', i).data.parent == if i == r.moved then r.target else Node(t, i).data.parent
  }

  lemma RenamedMoves(t: Table, r: Rename, revision: Revision)
    requires Movable(t, r) && Apart3(r)
    ensures Moves(t, r, Renamed(t, r, revision))
  {
  }

  lemma OtherLinksKept(t: Table, r: Rename, t': Table, i: InodeId)
    requires Movable(t, r) && Moves(t, r, t') && i != r.moved
    ensures EntriesTo(t', i) == EntriesTo(t, i)
  {
    forall k ensures k in EntriesTo(t', i) <==> k in EntriesTo(t, i) {
      assert k.EntryKey? && k != From(r) && k != To(r) ==> Lookup(t', k) == Lookup(t, k);
    }
  }

  lemma MovedLinkKept(t: Table, r: Rename, t': Table)
    requires Movable(t, r) && Moves(t, r, t') && EntriesTo(t, r.moved) == {From(r)}
    ensures EntriesTo(t', r.moved) == {To(r)}
  {
    forall k ensures k in EntriesTo(t', r.moved) <==> k == To(r) {
      assert k in EntriesTo(t, r.moved) <==> k == From(r);
      assert k.EntryKey? && k != From(r) && k != To(r) ==> Lookup(t', k) == Lookup(t, k);
    }
  }

  lemma NamesKept(t: Table, r: Rename, t': Table, p: InodeId)
    requires Movable(t, r) && Moves(t, r, t')
    ensures EntriesIn(t, p) - {From(r)} <= EntriesIn(t', p)
  {
    forall k | k in EntriesIn(t, p) && k != From(r) ensures k in EntriesIn(t', p) {
      assert Lookup(t', k) == Lookup(t, k);
    }
  }

  lemma LinksKept(t: Table, r: Rename, t': Table, i: InodeId)
    requires WellKeyed(t) && Movable(t, r) && Moves(t, r, t') && IsDirectory(t, i) && InodeAccounted(t, Node(t, i))
    ensures LinksOk(t', Node(t', i))
  {
    assert DirectoryKept(t, r, t', i);
    var id := Node(t, i).id;
    assert Lookup(t', OrphanKey(id)) == Lookup(t, OrphanKey(id));
    forall k ensures k in Pins(t', id) <==> k in Pins(t, id) {
      assert k.OpenPinKey? ==> Lookup(t', k) == Lookup(t, k);
    }
    assert Pins(t', id) == Pins(t, id);
  }

  /** The parent of a live directory is live. */
  lemma ParentLive(t: Table, i: InodeId)
    requires WellKeyed(t) && Tree(t) && Live(t, HeaderAt(t).value.root, i)
    ensures Live(t, HeaderAt(t).value.root, Node(t, i).data.parent)
  {
    var root := HeaderAt(t).value.root;
    if i != root {
      InodeRow(t, i);
      assert NodePlaced(t, root, Node(t, i));
      var parent := Node(t, i).data.parent;
      InodeRow(t, parent);
      assert EntriesIn(t, parent) != {};
      assert parent == root || NodePlaced(t, root, Node(t, parent));
    }
  }

  /** A live directory that reaches the root afterwards passes the targeted check. */
  lemma LiveStaysPlaced(t: Table, r: Rename, t': Table, i: InodeId, depth: nat)
    requires WellKeyed(t) && Tree(t) && Accounted(t) && Movable(t, r) && Apart3(r) && Moves(t, r, t')
    requires Live(t, HeaderAt(t).value.root, i) && Ancestry(t', i, HeaderAt(t).value.root, depth)
    ensures InodeOk(t', i, depth)
  {
    var root := HeaderAt(t).value.root;
    InodeRow(t, i);
    LinksKept(t, r, t', i);
    assert DirectoryKept(t, r, t', i);
    MovedFromSource(t, r);
    if i == r.moved {
      MovedLinkKept(t, r, t');
      assert DirectoryKept(t, r, t', r.target);
      assert To(r) in EntriesIn(t', r.target);
      assert EntriesTo(t', i) * EntriesIn(t', r.target) == {To(r)};
    } else {
      OtherLinksKept(t, r, t', i);
      if i != root {
        assert NodePlaced(t, root, Node(t, i));
        var parent := Node(t, i).data.parent;
        assert DirectoryKept(t, r, t', parent);
        NamesKept(t, r, t', parent);
        assert From(r) !in EntriesTo(t, i);
        assert EntriesTo(t', i) * EntriesIn(t', parent) == EntriesTo(t', i);
      }
    }
  }

  // -------------------------------------------------------------- the walk up

  lemma {:induction false} ClearStaysUp(t: Table, r: Rename, t': Table, i: InodeId, depth: nat)
    requires Movable(t, r) && Moves(t, r, t') && RootPlaced(t, HeaderAt(t).value.root)
    requires Clear(t, i, r.moved, HeaderAt(t).value.root, depth) && r.moved != HeaderAt(t).value.root
    ensures Ancestry(t', i, HeaderAt(t).value.root, depth)
    decreases depth
  {
    hide Moves;
    MovesDirectory(t, r, t', i);
    if i != HeaderAt(t).value.root {
      ClearStaysUp(t, r, t', Node(t, i).data.parent, depth - 1);
    }
  }

  lemma MovesDirectory(t: Table, r: Rename, t': Table, i: InodeId)
    requires Movable(t, r) && Moves(t, r, t')
    ensures HeaderAt(t') == HeaderAt(t)
    ensures IsDirectory(t, i) ==> DirectoryKept(t, r, t', i)
  {
  }

  lemma {:induction false} DeeperAncestry(t: Table, i: InodeId, root: InodeId, less: nat, more: nat)
    requires Ancestry(t, i, root, less) && less <= more
    ensures Ancestry(t, i, root, more)
    decreases less
  {
    if i != root {
      DeeperAncestry(t, Node(t, i).data.parent, root, less - 1, more - 1);
    }
  }

  /** Whoever reached the root still does: on the old way, or through the moved directory
      and from the target up. */
  lemma {:induction false} ReachesAfterwards(t: Table, r: Rename, t': Table, i: InodeId, depth: nat, height: nat)
    requires Movable(t, r) && Moves(t, r, t') && RootPlaced(t, HeaderAt(t).value.root)
    requires r.moved != HeaderAt(t).value.root && Clear(t, r.target, r.moved, HeaderAt(t).value.root, height)
    requires Ancestry(t, i, HeaderAt(t).value.root, depth)
    ensures Ancestry(t', i, HeaderAt(t).value.root, depth + height + 1)
    decreases depth
  {
    hide Moves;
    var root := HeaderAt(t).value.root;
    MovesDirectory(t, r, t', i);
    if i == r.moved {
      ClearStaysUp(t, r, t', r.target, height);
      DeeperAncestry(t', r.target, root, height, depth + height);
    } else if i != root {
      ReachesAfterwards(t, r, t', Node(t, i).data.parent, depth - 1, height);
    }
  }

  /** The way up from `i` as far as `x`. */
  function WayUp(t: Table, i: InodeId, x: InodeId, depth: nat): set<InodeId>
    decreases depth
  {
    {i} + if i == x || depth == 0 || !IsDirectory(t, i) then {} else WayUp(t, Node(t, i).data.parent, x, depth - 1)
  }

  /** A way up that is not clear leads to `x` without passing the root. */
  lemma {:induction false} BlockedWay(t: Table, i: InodeId, x: InodeId, root: InodeId, depth: nat)
    requires Ancestry(t, i, root, depth) && !Clear(t, i, x, root, depth) && x != root
    ensures i in WayUp(t, i, x, depth) && root !in WayUp(t, i, x, depth)
    ensures forall j | j in WayUp(t, i, x, depth) ::
      IsDirectory(t, j) && (j != x ==> Node(t, j).data.parent in WayUp(t, i, x, depth))
    decreases depth
  {
    if i != x {
      BlockedWay(t, Node(t, i).data.parent, x, root, depth - 1);
    }
  }

  /** A directory moved below itself never reaches the root again. */
  lemma LoopNeverReaches(t: Table, r: Rename, t': Table, height: nat, depth: nat)
    requires Movable(t, r) && Moves(t, r, t') && r.moved != HeaderAt(t).value.root
    requires Ancestry(t, r.target, HeaderAt(t).value.root, height)
    requires !Clear(t, r.target, r.moved, HeaderAt(t).value.root, height)
    ensures !Ancestry(t', r.target, HeaderAt(t).value.root, depth)
  {
    hide Moves;
    var root := HeaderAt(t).value.root;
    BlockedWay(t, r.target, r.moved, root, height);
    var way := WayUp(t, r.target, r.moved, height);
    forall j | j in way ensures IsDirectory(t', j) ==> Node(t', j).data.parent in way {
      MovesDirectory(t, r, t', j);
    }
    ClosedSetNeverReaches(t', way, r.target, root, depth);
  }

  // ------------------------------------------------------------ the theorem

  /** What the targeted checks look at. */
  lemma RenameTargets(t: Table, loaded: Table, r: Rename, i: InodeId)
    requires WellKeyed(t) && Movable(t, r)
    ensures TargetsInode(loaded, RenameChanges(t, r), i) <==>
      || i == r.source || i == r.target || i == r.moved
      || i == Node(t, r.source).data.parent || i == Node(t, r.target).data.parent
    ensures forall o :: !TargetsOpen(loaded, RenameChanges(t, r), o)
    ensures forall c, t' | c in RenameChanges(t, r) :: WrittenRowOk(t', c)
  {
    var c := RenameChanges(t, r);
    InodeRow(t, r.source);
    InodeRow(t, r.target);
    InodeRow(t, r.moved);
    assert ChangeInodes(loaded, c[0]) == {r.source, r.target, r.moved};
    assert ChangeInodes(loaded, c[1]) == {r.source, Node(t, r.source).data.parent};
    assert ChangeInodes(loaded, c[2]) == {r.target, Node(t, r.target).data.parent};
    assert ChangeInodes(loaded, c[3]) == {r.moved, r.target};
    assert forall d | d in c :: ChangeOpens(loaded, d) == {};
  }

  /** Every live directory passes the targeted check afterwards. */
  lemma LiveIsChecked(t: Table, r: Rename, t': Table, i: InodeId, height: nat, depth: nat)
    requires WellKeyed(t) && Tree(t) && Accounted(t) && AncestryBounded(t, height) && Movable(t, r)
    requires Moves(t, r, t') && Apart3(r) && depth >= 2 * height + 1
    requires Clear(t, r.target, r.moved, HeaderAt(t).value.root, height) && Live(t, HeaderAt(t).value.root, i)
    ensures InodeOk(t', i, depth)
  {
    hide Moves, Accounted, InodeOk, WellKeyed, AncestryBounded, Clear, NodePlaced, EntryPlaced;
    var root := HeaderAt(t).value.root;
    MovedFromSource(t, r);
    LiveReaches(t, i, height);
    ReachesAfterwards(t, r, t', i, height, height);
    DeeperAncestry(t', i, root, 2 * height + 1, depth);
    LiveStaysPlaced(t, r, t', i, depth);
  }

  /** The moved tree passes the targeted checks when the way up is clear. */
  lemma RenamedIsChecked(t: Table, r: Rename, loaded: Table, t': Table, height: nat, depth: nat)
    requires WellKeyed(t) && Tree(t) && Accounted(t) && AncestryBounded(t, height) && Movable(t, r)
    requires Moves(t, r, t') && Apart3(r) && depth >= 2 * height + 1
    requires Clear(t, r.target, r.moved, HeaderAt(t).value.root, height)
    ensures TargetedOk(t', loaded, RenameChanges(t, r), depth)
  {
    assert RootPlaced(t, HeaderAt(t).value.root);
    MovesDirectory(t, r, t', HeaderAt(t).value.root);
    TargetsLive(t, r);
    hide Moves, Accounted, InodeOk, RenameChanges, WellKeyed, AncestryBounded, Clear, Tree, Live, TargetsInode;
    forall i | TargetsInode(loaded, RenameChanges(t, r), i) ensures InodeOk(t', i, depth) {
      RenameTargets(t, loaded, r, i);
      LiveIsChecked(t, r, t', i, height, depth);
    }
    RenameTargets(t, loaded, r, r.source);
  }

  lemma TargetsLive(t: Table, r: Rename)
    requires WellKeyed(t) && Tree(t) && Movable(t, r)
    ensures var root := HeaderAt(t).value.root;
            && Live(t, root, r.source) && Live(t, root, r.target) && Live(t, root, r.moved)
            && Live(t, root, Node(t, r.source).data.parent) && Live(t, root, Node(t, r.target).data.parent)
  {
    hide Tree;
    MovedFromSource(t, r);
    ParentLive(t, r.source);
    ParentLive(t, r.target);
  }

  lemma LiveReaches(t: Table, i: InodeId, height: nat)
    requires Tree(t) && AncestryBounded(t, height) && Live(t, HeaderAt(t).value.root, i)
    ensures Ancestry(t, i, HeaderAt(t).value.root, height)
  {
    assert RootPlaced(t, HeaderAt(t).value.root);
  }

  /** A directory moved below itself fails the ancestor check of the target. */
  lemma LoopIsRefused(t: Table, r: Rename, loaded: Table, t': Table, height: nat, depth: nat)
    requires WellKeyed(t) && Tree(t) && AncestryBounded(t, height) && Movable(t, r) && Moves(t, r, t')
    requires !Clear(t, r.target, r.moved, HeaderAt(t).value.root, height)
    ensures !TargetedOk(t', loaded, RenameChanges(t, r), depth)
  {
    hide Moves, RenameChanges, Tree;
    var root := HeaderAt(t).value.root;
    MovedFromSource(t, r);
    LiveReaches(t, r.target, height);
    LoopNeverReaches(t, r, t', height, depth);
    MovesDirectory(t, r, t', r.target);
    InodeRow(t, r.target);
    assert r.target != root;
    assert !InodeOk(t', r.target, depth);
    RenameTargets(t, loaded, r, r.target);
  }

  /** A request that carries the planned changes and whose preconditions hold, on a
      well-formed tree. */
  ghost predicate Requested(t: Table, r: Rename, q: Request, height: nat)
  {
    && WellKeyed(t) && ConstraintsHold(t) && Tree(t) && Accounted(t) && AncestryBounded(t, height)
    && Movable(t, r) && q.changes == RenameChanges(t, r) && PreconditionsHold(t, q)
  }

  /** The way from the target to the root does not meet the moved directory. */
  ghost predicate NotBelow(t: Table, r: Rename, height: nat)
  {
    HeaderAt(t).Some? && Clear(t, r.target, r.moved, HeaderAt(t).value.root, height)
  }

  lemma ClearIsAdmitted(t: Table, r: Rename, q: Request, revision: Revision, height: nat, depth: nat)
    requires Requested(t, r, q, height) && NotBelow(t, r, height) && CookieFree(t, r) && depth >= 2 * height + 1
    ensures Admitted(t, q, revision, depth, Renamed(t, r, revision))
  {
    assert Apart3(r) by { MovedFromSource(t, r); }
    assert Node(t, r.moved).data.parent == r.source by { MovedFromSource(t, r); }
    hide PreconditionsHold, RenameChanges, PreflightOk, TransitionsOk, LocksOk, TargetedOk, ApplyAll, Loaded, Moves;
    hide Renamed, CookieFree, Tree, Accounted, AncestryBounded, ConstraintsHold, WellKeyed, Movable, LoadedFrom, Clear;
    RenamePreflight(t, r, q);
    RenameTransitions(t, r, q);
    RenameApplies(t, Loaded(t, q), r, q, revision);
    RenamedMoves(t, r, revision);
    RenamedIsChecked(t, r, Loaded(t, q), Renamed(t, r, revision), height, depth);
  }

  lemma AdmittedIsClear(t: Table, r: Rename, q: Request, revision: Revision, height: nat, depth: nat, t': Table)
    requires Requested(t, r, q, height) && Admitted(t, q, revision, depth, t')
    ensures NotBelow(t, r, height) && CookieFree(t, r)
  {
    assert r.source != r.target && HeaderAt(t).Some?;
    assert r.moved != r.source && Node(t, r.moved).data.parent == r.source by { MovedFromSource(t, r); }
    hide PreconditionsHold, RenameChanges, PreflightOk, TransitionsOk, LocksOk, TargetedOk, ApplyAll, Loaded, Moves;
    hide Renamed, CookieFree, Tree, Accounted, AncestryBounded, ConstraintsHold, WellKeyed, Movable, LoadedFrom, Clear;
    RenamePreflight(t, r, q);
    RenameTransitions(t, r, q);
    RenameApplies(t, Loaded(t, q), r, q, revision);
    RenamedMoves(t, r, revision);
    if !NotBelow(t, r, height) {
      LoopIsRefused(t, r, Loaded(t, q), Renamed(t, r, revision), height, depth);
    }
  }

  /** On a well-formed tree the planned rename is admitted exactly when the way from the
      target to the root does not meet the moved directory and no entry of the target has
      its cookie; it then leaves the renamed table. */
  lemma RenameAdmittedIff(t: Table, r: Rename, q: Request, revision: Revision, height: nat, depth: nat)
    requires Requested(t, r, q, height) && depth >= 2 * height + 1
    ensures (exists t' :: Admitted(t, q, revision, depth, t')) <==> NotBelow(t, r, height) && CookieFree(t, r)
    ensures forall t' :: Admitted(t, q, revision, depth, t') ==> t' == Renamed(t, r, revision)
  {
    assert Movable(t, r);
    hide Requested, NotBelow, CookieFree, Admitted, Movable, Renamed;
    if NotBelow(t, r, height) && CookieFree(t, r) {
      ClearIsAdmitted(t, r, q, revision, height, depth);
    }
    forall t' | Admitted(t, q, revision, depth, t')
      ensures NotBelow(t, r, height) && CookieFree(t, r) && t' == Renamed(t, r, revision)
    {
      AdmittedIsClear(t, r, q, revision, height, depth, t');
      ClearIsAdmitted(t, r, q, revision, height, depth);
      AdmittedOnce(t, q, revision, depth, t', Renamed(t, r, revision));
    }
  }

  lemma AdmittedOnce(t: Table, q: Request, revision: Revision, depth: nat, a: Table, b: Table)
    requires Admitted(t, q, revision, depth, a) && Admitted(t, q, revision, depth, b)
    ensures a == b
  {
    hide PreflightOk, PreconditionsHold, TransitionsOk, LocksOk, TargetedOk, ApplyAll, Loaded;
  }

  // -------------------------------------------------------- the planned request

  /** What the planner states of the rows it read. */
  function RenamePreconditions(t: Table, r: Rename, maximum: nat): seq<Precondition>
    requires Movable(t, r)
  {
    [PolicyGenerationIs(HeaderAt(t).value.policyGeneration),
     RecordRevision(InodeKey(r.source), Node(t, r.source).revision),
     DirectoryGenerationIs(r.source, Node(t, r.source).data.generation),
     RecordRevision(From(r), t[From(r)].entry.revision),
     RecordRevision(InodeKey(r.moved), Node(t, r.moved).revision)]
    + Lineage(t, r.target, HeaderAt(t).value.root, maximum)
    + [RecordRevision(InodeKey(r.target), Node(t, r.target).revision),
       DirectoryGenerationIs(r.target, Node(t, r.target).data.generation),
       RecordAbsent(To(r))]
  }

  lemma PlannedIsTrue(t: Table, r: Rename, maximum: nat, p: Precondition, q: Request)
    requires Movable(t, r) && p in RenamePreconditions(t, r, maximum)
    ensures Meaning(p, t, q) && forall k | k in PreconditionKeys(p) :: !Own(q, k)
  {
    if p in Lineage(t, r.target, HeaderAt(t).value.root, maximum) {
      LineageIsTrue(t, r.target, HeaderAt(t).value.root, maximum, p, q);
    }
  }

  lemma PlannedHold(t: Table, r: Rename, maximum: nat, q: Request)
    requires Movable(t, r) && q.preconditions == RenamePreconditions(t, r, maximum)
    ensures PreconditionsHold(t, q)
  {
    hide ConflictOf, Loaded, RenamePreconditions, Meaning;
    forall p | p in q.preconditions ensures ConflictOf(p, t, Loaded(t, q), q).None? {
      PlannedIsTrue(t, r, maximum, p, q);
      PreconditionIsTrue(t, q, p);
    }
  }

  lemma {:induction false} ClearWithin(t: Table, i: InodeId, x: InodeId, root: InodeId, maximum: nat, height: nat)
    requires Clear(t, i, x, root, maximum) && Ancestry(t, i, root, height)
    ensures Clear(t, i, x, root, height)
    decreases height
  {
    if i != root {
      ClearWithin(t, Node(t, i).data.parent, x, root, maximum - 1, height - 1);
    }
  }

  /** Completeness of the planner: a rename whose ancestor walk succeeded is admitted on
      the table it was planned on, unless an entry of the target has its cookie. */
  lemma PlannedRenameAdmitted(t: Table, r: Rename, q: Request, revision: Revision, maximum: nat, height: nat,
                              depth: nat)
    requires WellKeyed(t) && ConstraintsHold(t) && Tree(t) && Accounted(t) && AncestryBounded(t, height)
    requires Movable(t, r) && depth >= 2 * height + 1
    requires Clear(t, r.target, r.moved, HeaderAt(t).value.root, maximum)
    requires q.preconditions == RenamePreconditions(t, r, maximum) && q.changes == RenameChanges(t, r)
    ensures (exists t' :: Admitted(t, q, revision, depth, t')) <==> CookieFree(t, r)
    ensures forall t' :: Admitted(t, q, revision, depth, t') ==> t' == Renamed(t, r, revision)
  {
    assert Live(t, HeaderAt(t).value.root, r.target);
    LiveReaches(t, r.target, height);
    ClearWithin(t, r.target, r.moved, HeaderAt(t).value.root, maximum, height);
    hide WellKeyed, ConstraintsHold, Tree, Accounted, AncestryBounded, PreconditionsHold, CookieFree, Renamed, Admitted;
    hide RenamePreconditions, RenameChanges, Clear;
    PlannedHold(t, r, maximum, q);
    RenameAdmittedIff(t, r, q, revision, height, depth);
  }
}
