/** The invariants checked after applying a request, on the targeted inodes and
    opens only (crates/w9pt-fs-state-postgres/src/commit.rs `validate_targeted_invariants`). */
module Targeting {
  import opened Values
  import opened Records
  import opened Requests

  // -------------------------------------------------------------- targets

  function RecordInodes(r: Record): set<InodeId>
  {
    match r
    case FilesystemRecord(h) => {h.root}
    case InodeRecord(n) => if n.data.DirectoryData? then {n.id, n.data.parent} else {n.id}
    case ContentMetadataRecord(c) => {c.owner}
    case EntryRecord(e) => {e.parent, e.child}
    case OpenRecord(o) => {o.inode}
    case OpenPinRecord(p) => {p.inode}
    case OrphanRecord(o) => {o.inode}
    case LockRecord(l) => {l.inode}
    case XattrRecord(x) => {x.inode}
    case XattrStagingRecord(s) => {s.inode}
    case _ => {}
  }

  function KeyInodes(k: Key): set<InodeId>
  {
    match k
    case InodeKey(i) => {i}
    case OrphanKey(i) => {i}
    case OpenPinKey(i, _) => {i}
    case LockKey(i, _) => {i}
    case XattrKey(i, _) => {i}
    case _ => {}
  }

  function ChangeInodes(loaded: Table, c: Change): set<InodeId>
  {
    match c
    case Insert(_, r) => RecordInodes(r)
    case Replace(_, r) => RecordInodes(r)
    case Delete(k) => (if k in loaded then RecordInodes(loaded[k]) else {}) + KeyInodes(k)
    case MoveEntry(p, _, e) => {p, e.parent, e.child}
    case BumpInodeGeneration(i) => {i}
    case BumpDirectoryGeneration(i) => {i}
    case AdjustLinkCount(i, _) => {i}
    case AdjustOpenPinCount(i, _) => {i}
    case BumpLockGeneration(i, _) => {i}
    case PublishContent(p) => {p.inode}
    case PublishXattrStaging(_, i, _) => {i}
    case _ => {}
  }

  function RecordOpens(r: Record): set<OpenId>
  {
    match r
    case OpenRecord(o) => {o.id}
    case OpenPinRecord(p) => {p.open}
    case LockRecord(l) => {l.owner.open}
    case _ => {}
  }

  function ChangeOpens(loaded: Table, c: Change): set<OpenId>
  {
    match c
    case Insert(_, r) => RecordOpens(r)
    case Replace(_, r) => RecordOpens(r)
    case Delete(k) =>
      (if k in loaded then RecordOpens(loaded[k]) else {})
      + (match k case OpenKey(o) => {o} case OpenPinKey(_, o) => {o} case _ => {})
    case _ => {}
  }

  ghost predicate TargetsInode(loaded: Table, changes: seq<Change>, i: InodeId)
  {
    exists c :: c in changes && i in ChangeInodes(loaded, c)
  }

  ghost predicate TargetsOpen(loaded: Table, changes: seq<Change>, o: OpenId)
  {
    exists c :: c in changes && o in ChangeOpens(loaded, c)
  }

  method TargetedIds(loaded: Table, changes: seq<Change>) returns (inodes: set<InodeId>, opens: set<OpenId>)
    ensures forall i :: i in inodes <==> TargetsInode(loaded, changes, i)
    ensures forall o :: o in opens <==> TargetsOpen(loaded, changes, o)
  {
    inodes, opens := {}, {};
    for x := 0 to |changes|
      invariant forall i :: i in inodes <==> TargetsInode(loaded, changes[..x], i)
      invariant forall o :: o in opens <==> TargetsOpen(loaded, changes[..x], o)
    {
      assert forall c :: c in changes[..x + 1] <==> c in changes[..x] || c == changes[x];
      inodes := inodes + ChangeInodes(loaded, changes[x]);
      opens := opens + ChangeOpens(loaded, changes[x]);
    }
    assert changes[..|changes|] == changes;
  }

  // -------------------------------------------------------------- ancestry

  /** `i` reaches the self-parented root within `depth` parent edges. */
  predicate Ancestry(t: Table, i: InodeId, root: InodeId, depth: nat)
    decreases depth
  {
    IsDirectory(t, i) &&
    var parent := InodeAt(t, i).value.data.parent;
    if i == root then parent == root else depth > 0 && Ancestry(t, parent, root, depth - 1)
  }

  ghost predicate Reaches(t: Table, i: InodeId, root: InodeId)
  {
    exists depth: nat :: Ancestry(t, i, root, depth)
  }

  /** A set closed under parents that misses the root never reaches it. */
  lemma {:induction false} ClosedSetNeverReaches(t: Table, s: set<InodeId>, i: InodeId, root: InodeId, depth: nat)
    requires i in s && root !in s
    requires forall j | j in s :: IsDirectory(t, j) ==> InodeAt(t, j).value.data.parent in s
    ensures !Ancestry(t, i, root, depth)
    decreases depth
  {
    if depth > 0 && IsDirectory(t, i) {
      ClosedSetNeverReaches(t, s, InodeAt(t, i).value.data.parent, root, depth - 1);
    }
  }

  /** The ancestor walk with its growing visited set decides bounded ancestry. */
  method ValidateAncestry(t: Table, inode: InodeId, root: InodeId, maximum: nat) returns (ok: bool)
    ensures ok <==> Ancestry(t, inode, root, maximum)
  {
    var current := inode;
    var visited: set<InodeId> := {};
    for n := 0 to maximum + 1
      invariant Ancestry(t, inode, root, maximum) <==> n <= maximum && Ancestry(t, current, root, maximum - n)
      invariant inode == current || inode in visited
      invariant root !in visited
      invariant forall j | j in visited
                  :: IsDirectory(t, j) && InodeAt(t, j).value.data.parent in visited + {current}
    {
      if current in visited {
        assert visited + {current} == visited;
        ClosedSetNeverReaches(t, visited, current, root, maximum - n);
        return false;
      }
      if !IsDirectory(t, current) {
        return false;
      }
      var parent := InodeAt(t, current).value.data.parent;
      if current == root {
        return parent == root;
      }
      visited := visited + {current};
      current := parent;
    }
    return false;
  }

  // ------------------------------------------------------------- the checks

  predicate EntryRelationsOk(t: Table, e: Entry)
  {
    && IsDirectory(t, e.parent)
    && InodeAt(t, e.child).Some?
    && HeaderAt(t).Some? && e.cookie < HeaderAt(t).value.nextCookie
  }

  predicate LockOwnerOk(t: Table, l: Lock)
  {
    var k := OpenKey(l.owner.open);
    k in t && t[k].OpenRecord? && t[k].open.inode == l.inode && t[k].open.client == l.owner.client
  }

  predicate PinOwnerOk(t: Table, p: OpenPin)
  {
    var k := OpenKey(p.open);
    k in t && t[k].OpenRecord? && t[k].open.inode == p.inode
  }

  predicate RefersTo(r: Record, i: InodeId)
  {
    match r
    case EntryRecord(e) => e.parent == i || e.child == i
    case OpenRecord(o) => o.inode == i
    case OpenPinRecord(p) => p.inode == i
    case OrphanRecord(o) => o.inode == i
    case LockRecord(l) => l.inode == i
    case XattrRecord(x) => x.inode == i
    case XattrStagingRecord(s) => s.inode == i
    case _ => false
  }

  /** The row at `k` refers to inode `i`. */
  predicate DependsOn(t: Table, k: Key, i: InodeId)
    requires k in t
  {
    RefersTo(t[k], i)
  }

  /** The record names inode `i`, as its own identity, as parent, owner or root, or as
      what it depends on. */
  predicate Mentions(r: Record, i: InodeId)
  {
    || RefersTo(r, i)
    || (r.InodeRecord? && (r.node.id == i || (r.node.data.DirectoryData? && r.node.data.parent == i)))
    || (r.ContentMetadataRecord? && r.metadata.owner == i)
    || (r.FilesystemRecord? && r.header.root == i)
  }

  predicate KeyedBy(k: Key, i: InodeId)
  {
    (k.InodeKey? || k.OpenPinKey? || k.OrphanKey? || k.LockKey? || k.XattrKey?) && k.inode == i
  }

  /** The inodes a change targets: those its record, or the record it deletes, mentions,
      and those its keys are about. */
  lemma TargetsMean(loaded: Table, c: Change, i: InodeId)
    ensures i in ChangeInodes(loaded, c) <==>
      match c
      case Insert(_, r) => Mentions(r, i)
      case Replace(_, r) => Mentions(r, i)
      case Delete(k) => KeyedBy(k, i) || (k in loaded && Mentions(loaded[k], i))
      case MoveEntry(p, _, e) => i == p || Mentions(EntryRecord(e), i)
      case _ => exists k :: Touches(c, k) && KeyedBy(k, i)
  {
    if !c.Insert? && !c.Replace? && !c.Delete? && !c.MoveEntry? {
      OtherTargets(c, i);
    }
  }

  lemma OtherTargets(c: Change, i: InodeId)
    requires !c.Insert? && !c.Replace? && !c.Delete? && !c.MoveEntry?
    ensures i in ChangeInodes(map[], c) <==> exists k :: Touches(c, k) && KeyedBy(k, i)
  {
    if c.PublishXattrStaging? {
      assert Touches(c, XattrKey(c.inode, c.name));
    } else if !c.RetainResult? {
      assert Affected(c) == [PrimaryKey(c)];
      assert Touches(c, PrimaryKey(c));
    }
  }

  /** The opens a change targets: those its record, or the record it deletes, is or is
      owned by, and those its key names. */
  lemma OpenTargetsMean(loaded: Table, c: Change, o: OpenId)
    ensures o in ChangeOpens(loaded, c) <==>
      match c
      case Insert(_, r) => OwnedBy(r, o)
      case Replace(_, r) => OwnedBy(r, o)
      case Delete(k) => ((k.OpenKey? || k.OpenPinKey?) && k.open == o) || (k in loaded && OwnedBy(loaded[k], o))
      case _ => false
  {
  }

  predicate OwnedBy(r: Record, o: OpenId)
  {
    || (r.OpenRecord? && r.open.id == o)
    || (r.OpenPinRecord? && r.pin.open == o)
    || (r.LockRecord? && r.lock.owner.open == o)
  }

  predicate DirectoryOk(t: Table, n: Inode, depth: nat)
    requires n.data.DirectoryData?
  {
    HeaderAt(t).Some? &&
    var root := HeaderAt(t).value.root;
    var parent := n.data.parent;
    && (if n.id == root then parent == root && EntriesTo(t, n.id) == {}
        else if n.linkCount == 0 then EntriesTo(t, n.id) == {} && EntriesIn(t, n.id) == {}
        else IsDirectory(t, parent) && |EntriesTo(t, n.id)| == 1
             && |EntriesTo(t, n.id) * EntriesIn(t, parent)| == 1)
    && (n.linkCount != 0 ==> Ancestry(t, n.id, root, depth))
  }

  function OrphanAt(t: Table, i: InodeId): Option<Orphan>
  {
    if OrphanKey(i) in t && t[OrphanKey(i)].OrphanRecord? then Some(t[OrphanKey(i)].orphan) else None
  }

  predicate LinksOk(t: Table, n: Inode)
  {
    && (OrphanAt(t, n.id).Some? ==> n.linkCount == 0 && OrphanAt(t, n.id).value.pinCount == |Pins(t, n.id)|)
    && (n.linkCount == 0 ==> Pins(t, n.id) != {} && OrphanAt(t, n.id).Some?)
  }

  predicate InodeOk(t: Table, i: InodeId, depth: nat)
  {
    if InodeAt(t, i).None? then forall k | k in t :: !DependsOn(t, k, i)
    else
      var n := InodeAt(t, i).value;
      && (if n.data.DirectoryData? then DirectoryOk(t, n, depth) else |EntriesTo(t, i)| == n.linkCount)
      && LinksOk(t, n)
  }

  predicate OpenOk(t: Table, o: OpenId)
  {
    && (forall k | k in t && t[k].OpenPinRecord? && t[k].pin.open == o :: PinOwnerOk(t, t[k].pin))
    && (forall k | k in t && t[k].LockRecord? && t[k].lock.owner.open == o :: LockOwnerOk(t, t[k].lock))
  }

  predicate HeaderOk(t: Table)
  {
    match HeaderAt(t)
    case Some(h) => IsDirectory(t, h.root)
    case None => forall k | k in t :: !t[k].EntryRecord?
  }

  predicate WrittenRowOk(t: Table, c: Change)
  {
    c.Insert? || c.Replace? ==>
      && (c.record.EntryRecord? ==> EntryRelationsOk(t, c.record.entry))
      && (c.record.LockRecord? ==> LockOwnerOk(t, c.record.lock))
  }

  ghost predicate TargetedOk(t: Table, loaded: Table, changes: seq<Change>, depth: nat)
  {
    && HeaderOk(t)
    && (forall c | c in changes :: WrittenRowOk(t, c))
    && (forall i | TargetsInode(loaded, changes, i) :: InodeOk(t, i, depth))
    && (forall o | TargetsOpen(loaded, changes, o) :: OpenOk(t, o))
  }

  method InodeChecked(t: Table, i: InodeId, depth: nat) returns (ok: bool)
    requires WellKeyed(t)
    ensures ok <==> InodeOk(t, i, depth)
  {
    if InodeAt(t, i).None? {
      return forall k | k in t :: !DependsOn(t, k, i);
    }
    var n := InodeAt(t, i).value;
    assert Names(t[InodeKey(i)], InodeKey(i)) && n.id == i;
    var links := EntriesTo(t, i);
    if n.data.DirectoryData? {
      if HeaderAt(t).None? {
        return false;
      }
      var root := HeaderAt(t).value.root;
      ok := if n.id == root then n.data.parent == root && links == {}
            else if n.linkCount == 0 then links == {} && EntriesIn(t, n.id) == {}
            else IsDirectory(t, n.data.parent) && |links| == 1 && |links * EntriesIn(t, n.data.parent)| == 1;
      if ok && n.linkCount != 0 {
        ok := ValidateAncestry(t, n.id, root, depth);
      }
    } else {
      ok := |links| == n.linkCount;
    }
    ok := ok && LinksOk(t, n);
  }

  method ValidateTargeted(t: Table, loaded: Table, changes: seq<Change>, depth: nat) returns (ok: bool)
    requires WellKeyed(t)
    ensures ok <==> TargetedOk(t, loaded, changes, depth)
  {
    if !HeaderOk(t) {
      return false;
    }
    for x := 0 to |changes|
      invariant forall y | 0 <= y < x :: WrittenRowOk(t, changes[y])
    {
      if !WrittenRowOk(t, changes[x]) {
        return false;
      }
    }
    var inodes, opens := TargetedIds(loaded, changes);
    ok := InodesChecked(t, inodes, depth);
    if !ok {
      return;
    }
    ok := OpensChecked(t, opens);
  }

  method InodesChecked(t: Table, inodes: set<InodeId>, depth: nat) returns (ok: bool)
    requires WellKeyed(t)
    ensures ok <==> forall i | i in inodes :: InodeOk(t, i, depth)
  {
    var rest := inodes;
    while rest != {}
      invariant rest <= inodes
      invariant forall i | i in inodes && i !in rest :: InodeOk(t, i, depth)
      decreases |rest|
    {
      var i :| i in rest;
      ok := InodeChecked(t, i, depth);
      if !ok {
        return;
      }
      rest := rest - {i};
    }
    return true;
  }

  method OpensChecked(t: Table, opens: set<OpenId>) returns (ok: bool)
    ensures ok <==> forall o | o in opens :: OpenOk(t, o)
  {
    var rest := opens;
    while rest != {}
      invariant rest <= opens
      invariant forall o | o in opens && o !in rest :: OpenOk(t, o)
      decreases |rest|
    {
      var o :| o in rest;
      if !OpenOk(t, o) {
        return false;
      }
      rest := rest - {o};
    }
    return true;
  }
}
