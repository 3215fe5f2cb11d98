/** Open-unlinked accounting and referential integrity, kept by every accepted
    request (crates/w9pt-fs-state-postgres/src/commit.rs:1663-1762, 1874-1955, 2030-2173). */
module Accounting {
  import opened Values
  import opened Records
  import opened Requests
  import opened Applying
  import opened Effects
  import opened Loading
  import opened Targeting
  import opened Admission
  import opened Namespace

  /** Zero links means an orphan record whose count is the positive number of pins. */
  ghost predicate InodeAccounted(t: Table, n: Inode)
  {
    && (n.linkCount == 0 <==> OrphanAt(t, n.id).Some?)
    && (OrphanAt(t, n.id).Some? ==> OrphanAt(t, n.id).value.pinCount == |Pins(t, n.id)| > 0)
  }

  ghost predicate NoDangling(t: Table)
  {
    forall k, i | k in t && DependsOn(t, k, i) :: InodeAt(t, i).Some?
  }

  /** The stored open `o`, if it is of inode `i`. */
  function HeldOpen(t: Table, o: OpenId, i: InodeId): Option<Open>
  {
    match Lookup(t, OpenKey(o))
    case Some(OpenRecord(open)) => if open.inode == i then Some(open) else None
    case _ => None
  }

  /** Every pin and every lock belongs to a stored open of its inode, a lock to one of its
      client. */
  ghost predicate OwnersPresent(t: Table)
  {
    forall k | k in t ::
      match t[k]
      case OpenPinRecord(p) => HeldOpen(t, p.open, p.inode).Some?
      case LockRecord(l) =>
        var open := HeldOpen(t, l.owner.open, l.inode);
        open.Some? && open.value.client == l.owner.client
      case _ => true
  }

  ghost predicate Accounted(t: Table)
  {
    && (forall i | InodeAt(t, i).Some? :: InodeAccounted(t, InodeAt(t, i).value))
    && NoDangling(t)
    && OwnersPresent(t)
  }

  // -------------------------------------------------------------- locality

  /** A change that writes a row keyed by an inode targets that inode. */
  lemma TouchTargets(loaded: Table, c: Change, mutation: MutationContext, k: Key, i: InodeId)
    requires ShapeError(c, mutation).None? && Touches(c, k) && i in KeyInodes(k)
    ensures i in ChangeInodes(loaded, c)
  {
  }

  lemma UntargetedRow(t: Table, q: Request, revision: Revision, t': Table, k: Key, i: InodeId)
    requires Stepped(t, q, revision, t') && !TargetsInode(Loaded(t, q), q.changes, i) && i in KeyInodes(k)
    ensures Lookup(t', k) == Lookup(t, k)
  {
    if c :| c in q.changes && Touches(c, k) {
      TouchTargets(Loaded(t, q), c, q.mutation, k, i);
    }
  }

  lemma UntargetedAccounts(t: Table, q: Request, revision: Revision, t': Table, i: InodeId)
    requires Stepped(t, q, revision, t') && !TargetsInode(Loaded(t, q), q.changes, i)
    ensures Lookup(t', OrphanKey(i)) == Lookup(t, OrphanKey(i))
    ensures Pins(t', i) == Pins(t, i)
  {
    UntargetedRow(t, q, revision, t', OrphanKey(i), i);
    forall k | k in Pins(t', i) || k in Pins(t, i) ensures k in Pins(t', i) && k in Pins(t, i) {
      UntargetedRow(t, q, revision, t', k, i);
    }
  }

  /** A row written by a change refers to inodes the change targets. */
  lemma WrittenRowTargets(t: Table, loaded: Table, c: Change, q: Request, revision: Revision, k: Key, i: InodeId)
    requires ShapeError(c, q.mutation).None? && Admits(t, c, q) && WellKeyed(t) && !Allocates(c)
    requires k in Writes(t, t, c, revision).written && RefersTo(Writes(t, t, c, revision).written[k], i)
    ensures i in ChangeInodes(loaded, c)
  {
    var p := PrimaryKey(c);
    assert p in t ==> Names(t[p], p);
  }

  lemma ChangedRowTargets(t: Table, q: Request, revision: Revision, t': Table, k: Key, i: InodeId)
    requires Stepped(t, q, revision, t') && k in t' && DependsOn(t', k, i)
    requires Lookup(t', k) != Lookup(t, k)
    ensures TargetsInode(Loaded(t, q), q.changes, i)
  {
    hide Stepped, Writes, Loaded, ShapeError;
    RowNamed(t, q, revision, t', k);
    if !Touched(q.changes, k) {
      UntouchedKept(t, q, revision, t', k);
    }
    var c :| c in q.changes && Touches(c, k);
    ChangeAt(t, q, revision, t', c, k);
    SteppedParts(t, q, revision, t');
    WrittenRowTargets(t, Loaded(t, q), c, q, revision, k, i);
  }

  lemma UntargetedOpen(t: Table, q: Request, revision: Revision, t': Table, o: OpenId)
    requires Stepped(t, q, revision, t') && !TargetsOpen(Loaded(t, q), q.changes, o)
    ensures Lookup(t', OpenKey(o)) == Lookup(t, OpenKey(o))
  {
    UntargetedOpenRow(t, q, revision, t', OpenKey(o), o);
  }

  /** A change that writes an open or a pin of it targets that open. */
  lemma OpenTouchTargets(loaded: Table, c: Change, mutation: MutationContext, k: Key, o: OpenId)
    requires ShapeError(c, mutation).None? && Touches(c, k)
    requires k == OpenKey(o) || (k.OpenPinKey? && k.open == o)
    ensures o in ChangeOpens(loaded, c)
  {
  }

  lemma UntargetedOpenRow(t: Table, q: Request, revision: Revision, t': Table, k: Key, o: OpenId)
    requires Stepped(t, q, revision, t') && !TargetsOpen(Loaded(t, q), q.changes, o)
    requires k == OpenKey(o) || (k.OpenPinKey? && k.open == o)
    ensures Lookup(t', k) == Lookup(t, k)
  {
    hide Stepped, Loaded, ChangeOpens;
    if c :| c in q.changes && Touches(c, k) {
      ChangeAt(t, q, revision, t', c, k);
      OpenTouchTargets(Loaded(t, q), c, q.mutation, k, o);
    } else {
      UntouchedKept(t, q, revision, t', k);
    }
  }

  // ---------------------------------------------------------- preservation

  lemma NoDanglingPreserved(t: Table, q: Request, revision: Revision, depth: nat, t': Table)
    requires Stepped(t, q, revision, t') && TargetedOk(t', Loaded(t, q), q.changes, depth)
    requires NoDangling(t)
    ensures NoDangling(t')
  {
    forall k, i | k in t' && DependsOn(t', k, i) ensures InodeAt(t', i).Some? {
      if TargetsInode(Loaded(t, q), q.changes, i) {
        DependentKeepsInode(t', Loaded(t, q), q.changes, depth, k, i);
      } else {
        if Lookup(t', k) != Lookup(t, k) {
          ChangedRowTargets(t, q, revision, t', k, i);
        }
        assert DependsOn(t, k, i);
        UntargetedInode(t, q, revision, t', i);
      }
    }
  }

  lemma PinOwnerPreserved(t: Table, q: Request, revision: Revision, depth: nat, t': Table, k: Key)
    requires Stepped(t, q, revision, t') && TargetedOk(t', Loaded(t, q), q.changes, depth)
    requires OwnersPresent(t) && k in t' && t'[k].OpenPinRecord?
    ensures PinOwnerOk(t', t'[k].pin)
  {
    hide Stepped, Loaded, ChangeOpens;
    var o := t'[k].pin.open;
    if TargetsOpen(Loaded(t, q), q.changes, o) {
      assert OpenOk(t', o);
    } else {
      UntargetedOpen(t, q, revision, t', o);
      RowNamed(t, q, revision, t', k);
      UntargetedOpenRow(t, q, revision, t', k, o);
    }
  }

  /** A change that writes a lock without targeting its open keeps inode and owner. */
  lemma LockWriteKeepsOwner(t: Table, loaded: Table, c: Change, q: Request, revision: Revision, k: Key)
    requires ShapeError(c, q.mutation).None? && Admits(t, c, q) && Touches(c, k) && k.LockKey? && !Allocates(c)
    requires Value(Writes(t, t, c, revision), k).Some? && Value(Writes(t, t, c, revision), k).value.LockRecord?
    requires Value(Writes(t, t, c, revision), k).value.lock.owner.open !in ChangeOpens(loaded, c)
    ensures var now := Value(Writes(t, t, c, revision), k).value.lock;
            k in t && t[k].LockRecord? && t[k].lock.inode == now.inode && t[k].lock.owner == now.owner
  {
  }

  lemma LockOwnerPreserved(t: Table, q: Request, revision: Revision, depth: nat, t': Table, k: Key)
    requires Stepped(t, q, revision, t') && TargetedOk(t', Loaded(t, q), q.changes, depth)
    requires OwnersPresent(t) && k in t' && t'[k].LockRecord?
    ensures LockOwnerOk(t', t'[k].lock)
  {
    hide Stepped, Loaded, Writes, ChangeOpens, Admits, ShapeError;
    var o := t'[k].lock.owner.open;
    if TargetsOpen(Loaded(t, q), q.changes, o) {
      assert OpenOk(t', o);
    } else {
      UntargetedOpen(t, q, revision, t', o);
      RowNamed(t, q, revision, t', k);
      if c :| c in q.changes && Touches(c, k) {
        ChangeAt(t, q, revision, t', c, k);
        LockWriteKeepsOwner(t, Loaded(t, q), c, q, revision, k);
        assert LockOwnerOk(t, t[k].lock);
      } else {
        UntouchedKept(t, q, revision, t', k);
      }
    }
  }

  lemma InodeStaysAccounted(t: Table, q: Request, revision: Revision, depth: nat, t': Table, i: InodeId)
    requires Stepped(t, q, revision, t') && TargetedOk(t', Loaded(t, q), q.changes, depth)
    requires Accounted(t) && InodeAt(t', i).Some?
    ensures InodeAccounted(t', InodeAt(t', i).value)
  {
    assert Names(t'[InodeKey(i)], InodeKey(i));
    if TargetsInode(Loaded(t, q), q.changes, i) {
      assert InodeOk(t', i, depth);
    } else {
      UntargetedInode(t, q, revision, t', i);
      UntargetedAccounts(t, q, revision, t', i);
      assert InodeAccounted(t, InodeAt(t, i).value);
    }
  }

  /** Accounting survives every accepted request, without side conditions. */
  lemma AccountedPreserved(t: Table, q: Request, revision: Revision, depth: nat, t': Table)
    requires WellKeyed(t) && Accounted(t) && Admitted(t, q, revision, depth, t')
    ensures Accounted(t')
  {
    AdmittedSteps(t, q, revision, depth, t');
    NoDanglingPreserved(t, q, revision, depth, t');
    forall i | InodeAt(t', i).Some? ensures InodeAccounted(t', InodeAt(t', i).value) {
      InodeStaysAccounted(t, q, revision, depth, t', i);
    }
    forall k | k in t' && t'[k].OpenPinRecord? ensures PinOwnerOk(t', t'[k].pin) {
      PinOwnerPreserved(t, q, revision, depth, t', k);
    }
    forall k | k in t' && t'[k].LockRecord? ensures LockOwnerOk(t', t'[k].lock) {
      LockOwnerPreserved(t, q, revision, depth, t', k);
    }
  }
}
