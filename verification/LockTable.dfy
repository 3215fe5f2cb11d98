/** Byte-range lock admission and the conflict-free lock table
    (crates/w9pt-fs-state-postgres/src/commit.rs `validate_lock_conflicts`). */
module LockTable {
  import opened Values
  import opened Records
  import opened Requests
  import opened Applying
  import opened Effects

  /** `x` is a byte offset inside the lock's range. */
  predicate Covers(l: Lock, x: nat)
  {
    l.start <= x && (l.end.None? || x < l.end.value)
  }

  /** Ranges overlap exactly when some byte lies in both. */
  lemma OverlapIsSharedByte(a: Lock, b: Lock)
    requires SchemaAllows(LockRecord(a)) && SchemaAllows(LockRecord(b))
    ensures Overlaps(a, b) <==> exists x :: Covers(a, x) && Covers(b, x)
  {
    if Overlaps(a, b) {
      var x := if a.start < b.start then b.start else a.start;
      assert Covers(a, x) && Covers(b, x);
    }
  }

  /** Two locks conflict exactly when different owners hold some byte of one inode and at
      least one of them exclusively. */
  lemma ConflictsMean(a: Lock, b: Lock)
    requires SchemaAllows(LockRecord(a)) && SchemaAllows(LockRecord(b))
    ensures Conflicts(a, b) <==>
      && a.inode == b.inode && (a.owner.client != b.owner.client || a.owner.open != b.owner.open)
      && !(a.kind.Shared? && b.kind.Shared?) && exists x :: Covers(a, x) && Covers(b, x)
  {
    OverlapIsSharedByte(a, b);
  }

  /** The lock a change writes. */
  function FinalLock(c: Change): Option<Lock>
  {
    match c
    case Insert(_, LockRecord(l)) => Some(l)
    case Replace(LockKey(_, _), LockRecord(l)) => Some(l)
    case _ => None
  }

  /** The lock row a change takes out of the way. */
  function RemovedLock(c: Change): Option<Key>
  {
    match c
    case Replace(LockKey(i, l), LockRecord(_)) => Some(LockKey(i, l))
    case Delete(LockKey(i, l)) => Some(LockKey(i, l))
    case _ => None
  }

  ghost predicate Removed(changes: seq<Change>, k: Key)
  {
    exists c :: c in changes && RemovedLock(c) == Some(k)
  }

  predicate Blocks(t: Table, k: Key, lock: Lock)
  {
    k in t && k.LockKey? && k.inode == lock.inode && t[k].LockRecord? && Conflicts(t[k].lock, lock)
  }

  function Lower(a: LockId, b: LockId): (r: LockId)
    ensures r <= a && r <= b && (r == a || r == b)
  {
    if a < b then a else b
  }

  ghost predicate Clash(changes: seq<Change>, c: Change, d: Change)
  {
    c in changes && d in changes && FinalLock(c).Some? && FinalLock(d).Some?
    && Conflicts(FinalLock(c).value, FinalLock(d).value)
  }

  ghost predicate Blocked(t: Table, changes: seq<Change>, c: Change, k: Key)
  {
    c in changes && FinalLock(c).Some? && Blocks(t, k, FinalLock(c).value) && !Removed(changes, k)
  }

  /** `id` identifies a conflict of the request, whatever the order of its changes. */
  ghost predicate ConflictId(t: Table, changes: seq<Change>, id: LockId)
  {
    || (exists c, d :: Clash(changes, c, d)
          && id == Lower(FinalLock(c).value.id, FinalLock(d).value.id))
    || (exists c, k :: Blocked(t, changes, c, k) && id == k.lock)
  }

  ghost predicate LocksOk(t: Table, changes: seq<Change>)
  {
    forall id :: !ConflictId(t, changes, id)
  }

  /** No two different owners hold overlapping locks unless both are shared. */
  ghost predicate ConflictFree(t: Table)
  {
    forall j, k | j in t && k in t && t[j].LockRecord? && t[k].LockRecord?
      :: !Conflicts(t[j].lock, t[k].lock)
  }

  // ------------------------------------------------------------- searching

  /** The lock rows a candidate must step over. */
  ghost function Blocking(t: Table, lock: Lock, after: Option<LockId>): set<Key>
  {
    set k | k in t && Blocks(t, k, lock) && (after.None? || after.value < k.lock)
  }

  /** The ordered one-row query: the least blocking identity past `after`. */
  method NextBlocking(t: Table, lock: Lock, after: Option<LockId>) returns (found: Option<LockId>)
    ensures found.None? <==> Blocking(t, lock, after) == {}
    ensures found.Some? ==>
      && LockKey(lock.inode, found.value) in Blocking(t, lock, after)
      && forall k | k in Blocking(t, lock, after) :: found.value <= k.lock
  {
    found := None;
    var rest := t.Keys;
    while rest != {}
      invariant rest <= t.Keys
      invariant found.Some? ==> LockKey(lock.inode, found.value) in Blocking(t, lock, after)
      invariant forall k | k in Blocking(t, lock, after) && k !in rest
                  :: found.Some? && found.value <= k.lock
      decreases |rest|
    {
      var k :| k in rest;
      if Blocks(t, k, lock) && (after.None? || after.value < k.lock)
         && (found.None? || k.lock < found.value) {
        found := Some(k.lock);
      }
      rest := rest - {k};
    }
  }

  ghost predicate ClashId(locks: seq<Lock>, i: nat, id: LockId)
    requires i < |locks|
  {
    exists j :: i < j < |locks| && Conflicts(locks[i], locks[j]) && id == Lower(locks[i].id, locks[j].id)
  }

  ghost predicate BlockId(t: Table, lock: Lock, removed: set<Key>, id: LockId)
  {
    exists k :: Blocks(t, k, lock) && k !in removed && id == k.lock
  }

  /** The paging loop: steps over removed rows until the first live conflict. */
  method LowestBlocking(t: Table, lock: Lock, removed: set<Key>) returns (found: Option<LockId>)
    ensures found.None? ==> forall id :: !BlockId(t, lock, removed, id)
    ensures found.Some? ==> BlockId(t, lock, removed, found.value)
    ensures found.Some? ==> forall id | BlockId(t, lock, removed, id) :: found.value <= id
  {
    var after: Option<LockId> := None;
    while true
      invariant forall k | Blocks(t, k, lock) && k !in removed :: k in Blocking(t, lock, after)
      decreases |Blocking(t, lock, after)|
    {
      found := NextBlocking(t, lock, after);
      if found.None? || LockKey(lock.inode, found.value) !in removed {
        return;
      }
      ghost var before := Blocking(t, lock, after);
      ghost var key := LockKey(lock.inode, found.value);
      after := found;
      assert Blocking(t, lock, after) <= before - {key};
      Shrinks(Blocking(t, lock, after), before, key);
    }
  }

  lemma Shrinks(a: set<Key>, b: set<Key>, k: Key)
    requires a <= b - {k} && k in b
    ensures |a| < |b|
  {
    assert b == (b - {k}) + {k};
    Subset(a, b - {k});
  }

  lemma {:induction false} Subset(a: set<Key>, b: set<Key>)
    requires a <= b
    ensures |a| <= |b|
  {
    if a != {} {
      var x :| x in a;
      Subset(a - {x}, b - {x});
    }
  }

  function Retain(current: Option<LockId>, candidate: LockId): Option<LockId>
  {
    if current.None? || candidate < current.value then Some(candidate) else current
  }

  method CollectLocks(changes: seq<Change>) returns (locks: seq<Lock>, removed: set<Key>)
    ensures forall l :: l in locks <==> exists c :: c in changes && FinalLock(c) == Some(l)
    ensures forall k :: k in removed <==> Removed(changes, k)
  {
    locks, removed := [], {};
    for i := 0 to |changes|
      invariant forall l :: l in locks <==> exists c :: c in changes[..i] && FinalLock(c) == Some(l)
      invariant forall k :: k in removed <==> Removed(changes[..i], k)
    {
      assert forall c :: c in changes[..i + 1] <==> c in changes[..i] || c == changes[i];
      if FinalLock(changes[i]).Some? {
        locks := locks + [FinalLock(changes[i]).value];
      }
      if RemovedLock(changes[i]).Some? {
        removed := removed + {RemovedLock(changes[i]).value};
      }
    }
    assert changes[..|changes|] == changes;
  }

  /** The clashes of one final lock with the ones after it. */
  method LowestClash(locks: seq<Lock>, i: nat) returns (found: Option<LockId>)
    requires i < |locks|
    ensures found.None? ==> forall id :: !ClashId(locks, i, id)
    ensures found.Some? ==> ClashId(locks, i, found.value)
    ensures found.Some? ==> forall id | ClashId(locks, i, id) :: found.value <= id
  {
    found := None;
    for j := i + 1 to |locks|
      invariant found.None? ==> forall x | i < x < j :: !Conflicts(locks[i], locks[x])
      invariant found.Some? ==> ClashId(locks, i, found.value)
      invariant found.Some? ==> forall x | i < x < j && Conflicts(locks[i], locks[x])
                                  :: found.value <= Lower(locks[i].id, locks[x].id)
    {
      if Conflicts(locks[i], locks[j]) {
        found := Retain(found, Lower(locks[i].id, locks[j].id));
      }
    }
  }

  /** Identities contributed by the final locks before position `n`. */
  ghost predicate SeenId(t: Table, locks: seq<Lock>, removed: set<Key>, n: nat, id: LockId)
    requires n <= |locks|
  {
    exists i :: 0 <= i < n && (ClashId(locks, i, id) || BlockId(t, locks[i], removed, id))
  }

  ghost predicate IsLowest(t: Table, locks: seq<Lock>, removed: set<Key>, n: nat, lowest: Option<LockId>)
    requires n <= |locks|
  {
    if lowest.None? then forall id :: !SeenId(t, locks, removed, n, id)
    else
      && SeenId(t, locks, removed, n, lowest.value)
      && forall id | SeenId(t, locks, removed, n, id) :: lowest.value <= id
  }

  lemma SeenIsConflict(t: Table, changes: seq<Change>, locks: seq<Lock>, removed: set<Key>, id: LockId)
    requires forall l :: l in locks <==> exists c :: c in changes && FinalLock(c) == Some(l)
    requires forall k :: k in removed <==> Removed(changes, k)
    ensures SeenId(t, locks, removed, |locks|, id) <==> ConflictId(t, changes, id)
  {
    if ConflictId(t, changes, id) {
      if c, d :| Clash(changes, c, d) && id == Lower(FinalLock(c).value.id, FinalLock(d).value.id) {
        assert FinalLock(c).value in locks && FinalLock(d).value in locks;
        var i :| 0 <= i < |locks| && locks[i] == FinalLock(c).value;
        var j :| 0 <= j < |locks| && locks[j] == FinalLock(d).value;
        assert i != j && Conflicts(locks[i], locks[j]) && Conflicts(locks[j], locks[i]);
        assert ClashId(locks, if i < j then i else j, id);
      } else {
        var c, k :| Blocked(t, changes, c, k) && id == k.lock;
        assert FinalLock(c).value in locks;
        var i :| 0 <= i < |locks| && locks[i] == FinalLock(c).value;
        assert Blocks(t, k, locks[i]);
        assert BlockId(t, locks[i], removed, id);
      }
    }
    if SeenId(t, locks, removed, |locks|, id) {
      var i :| 0 <= i < |locks| && (ClashId(locks, i, id) || BlockId(t, locks[i], removed, id));
      if ClashId(locks, i, id) {
        var j :| i < j < |locks| && Conflicts(locks[i], locks[j]) && id == Lower(locks[i].id, locks[j].id);
        assert locks[i] in locks && locks[j] in locks;
        var c :| c in changes && FinalLock(c) == Some(locks[i]);
        var d :| d in changes && FinalLock(d) == Some(locks[j]);
        assert Clash(changes, c, d);
      } else {
        var k :| Blocks(t, k, locks[i]) && k !in removed && id == k.lock;
        assert locks[i] in locks;
        var c :| c in changes && FinalLock(c) == Some(locks[i]);
        assert Blocked(t, changes, c, k);
      }
    }
  }

  ghost predicate LeastClash(locks: seq<Lock>, i: nat, found: Option<LockId>)
    requires i < |locks|
  {
    if found.None? then forall id :: !ClashId(locks, i, id)
    else ClashId(locks, i, found.value) && forall id | ClashId(locks, i, id) :: found.value <= id
  }

  ghost predicate LeastBlock(t: Table, lock: Lock, removed: set<Key>, found: Option<LockId>)
  {
    if found.None? then forall id :: !BlockId(t, lock, removed, id)
    else BlockId(t, lock, removed, found.value) && forall id | BlockId(t, lock, removed, id) :: found.value <= id
  }

  function RetainBoth(lowest: Option<LockId>, a: Option<LockId>, b: Option<LockId>): Option<LockId>
  {
    var first := if a.Some? then Retain(lowest, a.value) else lowest;
    if b.Some? then Retain(first, b.value) else first
  }

  lemma LowestNext(t: Table, locks: seq<Lock>, removed: set<Key>, i: nat, lowest: Option<LockId>,
                   clash: Option<LockId>, blocking: Option<LockId>)
    requires i < |locks| && IsLowest(t, locks, removed, i, lowest)
    requires LeastClash(locks, i, clash) && LeastBlock(t, locks[i], removed, blocking)
    ensures IsLowest(t, locks, removed, i + 1, RetainBoth(lowest, clash, blocking))
  {
    var n := i + 1;
    forall id ensures SeenId(t, locks, removed, n, id) <==>
        (SeenId(t, locks, removed, i, id) || ClashId(locks, i, id) || BlockId(t, locks[i], removed, id))
    {
      SeenNext(t, locks, removed, i, id);
    }
    var next := RetainBoth(lowest, clash, blocking);
    assert next.Some? ==> SeenId(t, locks, removed, n, next.value);
    assert forall id | SeenId(t, locks, removed, n, id) :: next.Some? && next.value <= id;
  }

  lemma SeenNext(t: Table, locks: seq<Lock>, removed: set<Key>, i: nat, id: LockId)
    requires i < |locks|
    ensures SeenId(t, locks, removed, i + 1, id) <==>
        (SeenId(t, locks, removed, i, id) || ClashId(locks, i, id) || BlockId(t, locks[i], removed, id))
  {
  }

  method LowestOver(t: Table, locks: seq<Lock>, removed: set<Key>) returns (lowest: Option<LockId>)
    ensures IsLowest(t, locks, removed, |locks|, lowest)
  {
    lowest := None;
    for i := 0 to |locks|
      invariant IsLowest(t, locks, removed, i, lowest)
    {
      var clash := LowestClash(locks, i);
      var blocking := LowestBlocking(t, locks[i], removed);
      LowestNext(t, locks, removed, i, lowest, clash, blocking);
      lowest := RetainBoth(lowest, clash, blocking);
    }
  }

  /** Reports the lowest identity among all conflicts, or none. */
  method ValidateLockConflicts(t: Table, changes: seq<Change>) returns (lowest: Option<LockId>)
    ensures lowest.None? <==> LocksOk(t, changes)
    ensures lowest.Some? ==> ConflictId(t, changes, lowest.value)
    ensures lowest.Some? ==> forall id | ConflictId(t, changes, id) :: lowest.value <= id
  {
    var locks, removed := CollectLocks(changes);
    lowest := LowestOver(t, locks, removed);
    forall id ensures SeenId(t, locks, removed, |locks|, id) <==> ConflictId(t, changes, id) {
      SeenIsConflict(t, changes, locks, removed, id);
    }
  }

  // ---------------------------------------------------------- preservation

  /** Locks that agree on everything a conflict looks at. */
  predicate SameClaim(a: Lock, b: Lock)
  {
    a.inode == b.inode && a.start == b.start && a.end == b.end && a.kind == b.kind && a.owner == b.owner
  }

  /** A lock row after the commit was written by it, or stood before and was not removed. */
  lemma LockOrigin(t: Table, changes: seq<Change>, mutation: MutationContext, revision: Revision,
                   t': Table, k: Key)
    requires WellKeyed(t) && WellKeyed(t') && WellShaped(changes, mutation)
    requires Written(t, changes, revision, t') && k in t' && t'[k].LockRecord?
    ensures || (exists c :: c in changes && FinalLock(c).Some? && SameClaim(FinalLock(c).value, t'[k].lock))
            || (k in t && t[k].LockRecord? && SameClaim(t[k].lock, t'[k].lock) && !Removed(changes, k))
  {
    assert Names(t'[k], k) && k.LockKey?;
    hide Writes, ShapeError;
    if c :| c in changes && Touches(c, k) {
      assert ShapeError(c, mutation).None?;
      LockWriters(t, c, mutation, revision, k);
      assert Lookup(t', k) == Value(Writes(t, t, c, revision), k);
      if d :| d in changes && RemovedLock(d) == Some(k) {
        assert ShapeError(d, mutation).None? && Touches(d, k);
        LockWriters(t, d, mutation, revision, k);
        assert Lookup(t', k) == Value(Writes(t, t, d, revision), k);
      }
    } else {
      RemovedIsTouched(changes, k);
      assert !Touched(changes, k) && Lookup(t', k) == Lookup(t, k);
    }
  }

  lemma RemovedIsTouched(changes: seq<Change>, k: Key)
    ensures Removed(changes, k) ==> Touched(changes, k)
  {
    if c :| c in changes && RemovedLock(c) == Some(k) {
      assert Touches(c, k);
    }
  }

  /** A lock row is written as final, or its claim is kept. */
  lemma LockWriters(t: Table, c: Change, mutation: MutationContext, revision: Revision, k: Key)
    requires ShapeError(c, mutation).None? && Touches(c, k) && k.LockKey?
    ensures !Allocates(c)
    ensures var now := Value(Writes(t, t, c, revision), k);
            now.Some? && now.value.LockRecord? ==>
              || (FinalLock(c).Some? && SameClaim(FinalLock(c).value, now.value.lock))
              || (RemovedLock(c) != Some(k) && k in t && t[k].LockRecord? && SameClaim(t[k].lock, now.value.lock))
  {
  }

  /** An admitted request keeps the lock table conflict-free. */
  lemma ConflictFreePreserved(t: Table, changes: seq<Change>, mutation: MutationContext,
                              revision: Revision, t': Table)
    requires WellKeyed(t) && WellKeyed(t') && WellShaped(changes, mutation)
    requires Written(t, changes, revision, t') && LocksOk(t, changes) && ConflictFree(t)
    ensures ConflictFree(t')
  {
    forall j, k | j in t' && k in t' && t'[j].LockRecord? && t'[k].LockRecord?
      ensures !Conflicts(t'[j].lock, t'[k].lock)
    {
      LockOrigin(t, changes, mutation, revision, t', j);
      LockOrigin(t, changes, mutation, revision, t', k);
      if Conflicts(t'[j].lock, t'[k].lock) {
        ConflictTraced(t, changes, t', j, k);
      }
    }
  }

  lemma ConflictTraced(t: Table, changes: seq<Change>, t': Table, j: Key, k: Key)
    requires WellKeyed(t) && ConflictFree(t)
    requires j in t' && k in t' && t'[j].LockRecord? && t'[k].LockRecord?
    requires Conflicts(t'[j].lock, t'[k].lock)
    requires || (exists c :: c in changes && FinalLock(c).Some? && SameClaim(FinalLock(c).value, t'[j].lock))
             || (j in t && t[j].LockRecord? && SameClaim(t[j].lock, t'[j].lock) && !Removed(changes, j))
    requires || (exists c :: c in changes && FinalLock(c).Some? && SameClaim(FinalLock(c).value, t'[k].lock))
             || (k in t && t[k].LockRecord? && SameClaim(t[k].lock, t'[k].lock) && !Removed(changes, k))
    ensures exists id :: ConflictId(t, changes, id)
  {
    if c :| c in changes && FinalLock(c).Some? && SameClaim(FinalLock(c).value, t'[j].lock) {
      if d :| d in changes && FinalLock(d).Some? && SameClaim(FinalLock(d).value, t'[k].lock) {
        assert Clash(changes, c, d);
        assert ConflictId(t, changes, Lower(FinalLock(c).value.id, FinalLock(d).value.id));
      } else {
        assert Names(t[k], k);
        assert Blocked(t, changes, c, k);
        assert ConflictId(t, changes, k.lock);
      }
    } else {
      assert Names(t[j], j);
      var d :| d in changes && FinalLock(d).Some? && SameClaim(FinalLock(d).value, t'[k].lock);
      assert Blocked(t, changes, d, j);
      assert ConflictId(t, changes, j.lock);
    }
  }
}
