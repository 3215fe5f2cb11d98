/** Transition validators over the loaded rows
    (crates/w9pt-fs-state-postgres/src/commit.rs `validate_transitions`). Each
    loop is proved to accept exactly what its predicate describes. */
module Transitions {
  import opened Values
  import opened Records
  import opened Requests

  // ------------------------------------------------------------- QID paths

  predicate InsertsInode(c: Change)
  {
    c.Insert? && c.record.InodeRecord?
  }

  function InodeInserts(changes: seq<Change>): nat
  {
    if changes == [] then 0
    else InodeInserts(changes[..|changes| - 1]) + if InsertsInode(changes[|changes| - 1]) then 1 else 0
  }

  /** Sum of the declared advances of one allocator. */
  function Declared(changes: seq<Change>, cookies: bool): nat
  {
    if changes == [] then 0
    else
      var last := changes[|changes| - 1];
      Declared(changes[..|changes| - 1], cookies)
      + if cookies && last.AdvanceCookie? then last.count
        else if !cookies && last.AdvanceQidPath? then last.count
        else 0
  }

  lemma {:induction false} DeclaredGrows(changes: seq<Change>, n: nat, cookies: bool)
    requires n <= |changes|
    ensures Declared(changes[..n], cookies) <= Declared(changes, cookies)
    decreases |changes| - n
  {
    if n < |changes| {
      assert changes[..n + 1][..n] == changes[..n];
      DeclaredGrows(changes, n + 1, cookies);
    } else {
      assert changes[..n] == changes;
    }
  }

  predicate KeepsQid(loaded: Table, c: Change)
  {
    c.Replace? && c.record.InodeRecord? && c.key in loaded && loaded[c.key].InodeRecord?
    ==> loaded[c.key].node.qidPath == c.record.node.qidPath
  }

  /** The inode inserted at position `i` takes the next unused identifier. */
  predicate TakesNextQid(h: Header, changes: seq<Change>, i: nat)
    requires i < |changes|
  {
    InsertsInode(changes[i]) ==>
      && changes[i].record.node.qidPath == h.nextQidPath + InodeInserts(changes[..i])
      && h.nextQidPath + InodeInserts(changes[..i]) + 1 <= U64_MAX
  }

  ghost predicate QidPathsOk(loaded: Table, changes: seq<Change>)
  {
    HeaderAt(loaded).Some? ==>
      && (forall i | 0 <= i < |changes| :: TakesNextQid(HeaderAt(loaded).value, changes, i))
      && (forall i | 0 <= i < |changes| :: KeepsQid(loaded, changes[i]))
      && Declared(changes, false) <= U64_MAX
      && InodeInserts(changes) == Declared(changes, false)
  }

  method ValidateQidPaths(loaded: Table, changes: seq<Change>) returns (error: Option<Malformed>)
    ensures error.None? <==> QidPathsOk(loaded, changes)
    ensures error.Some? ==> error.value.QidPathAllocation? || error.value.Arithmetic?
  {
    if HeaderAt(loaded).None? {
      return None;
    }
    var h := HeaderAt(loaded).value;
    var next, allocations, declared := h.nextQidPath, 0, 0;
    for i := 0 to |changes|
      invariant allocations == InodeInserts(changes[..i]) && next == h.nextQidPath + allocations
      invariant declared == Declared(changes[..i], false) <= U64_MAX
      invariant forall j | 0 <= j < i :: TakesNextQid(h, changes, j) && KeepsQid(loaded, changes[j])
    {
      var c := changes[i];
      assert changes[..i + 1][..i] == changes[..i];
      if InsertsInode(c) {
        if c.record.node.qidPath != next {
          assert !TakesNextQid(h, changes, i);
          return Some(QidPathAllocation);
        }
        if CheckedNext(next).None? {
          assert !TakesNextQid(h, changes, i);
          return Some(Arithmetic);
        }
        next := next + 1;
        allocations := allocations + 1;
      } else if !KeepsQid(loaded, c) {
        return Some(QidPathAllocation);
      } else if c.AdvanceQidPath? {
        if CheckedAdd(declared, c.count).None? {
          DeclaredGrows(changes, i + 1, false);
          return Some(Arithmetic);
        }
        declared := declared + c.count;
      }
    }
    assert changes[..|changes|] == changes;
    return if allocations != declared then Some(QidPathAllocation) else None;
  }

  // -------------------------------------------------------------- cookies

  /** The loaded entry a change removes from its name. */
  function Freed(loaded: Table, c: Change): Option<Entry>
  {
    if c.Delete? && c.key in loaded && loaded[c.key].EntryRecord? then Some(loaded[c.key].entry)
    else if c.MoveEntry? && SourceKey(c) in loaded && loaded[SourceKey(c)].EntryRecord?
      then Some(loaded[SourceKey(c)].entry)
    else None
  }

  predicate SameLink(a: Entry, b: Entry)
  {
    a.cookie == b.cookie && a.child == b.child
  }

  predicate Transfers(loaded: Table, changes: seq<Change>, e: Entry)
  {
    exists c :: c in changes && Freed(loaded, c).Some? && SameLink(Freed(loaded, c).value, e)
  }

  predicate NeedsCookie(loaded: Table, changes: seq<Change>, c: Change)
  {
    c.Insert? && c.record.EntryRecord? && !Transfers(loaded, changes, c.record.entry)
  }

  /** Newly allocated cookies among the first `n` changes. */
  function NewCookies(loaded: Table, changes: seq<Change>, n: nat): nat
    requires n <= |changes|
  {
    if n == 0 then 0
    else NewCookies(loaded, changes, n - 1) + if NeedsCookie(loaded, changes, changes[n - 1]) then 1 else 0
  }

  predicate TakesNextCookie(h: Header, loaded: Table, changes: seq<Change>, i: nat)
    requires i < |changes|
  {
    NeedsCookie(loaded, changes, changes[i]) ==>
      && changes[i].record.entry.cookie == h.nextCookie + NewCookies(loaded, changes, i)
      && h.nextCookie + NewCookies(loaded, changes, i) + 1 <= U64_MAX
  }

  predicate KeepsCookie(loaded: Table, c: Change)
  {
    && (c.Replace? && c.record.EntryRecord? && c.key in loaded && loaded[c.key].EntryRecord?
        ==> loaded[c.key].entry.cookie == c.record.entry.cookie)
    && (c.MoveEntry? ==> Freed(loaded, c).Some? && SameLink(Freed(loaded, c).value, c.destination))
  }

  ghost predicate CookiesOk(loaded: Table, changes: seq<Change>)
  {
    HeaderAt(loaded).Some? ==>
      && (forall i | 0 <= i < |changes| :: TakesNextCookie(HeaderAt(loaded).value, loaded, changes, i))
      && (forall i | 0 <= i < |changes| :: KeepsCookie(loaded, changes[i]))
      && Declared(changes, true) <= U64_MAX
      && NewCookies(loaded, changes, |changes|) == Declared(changes, true)
  }

  method FreedEntries(loaded: Table, changes: seq<Change>) returns (freed: seq<Entry>)
    ensures forall e :: e in freed <==> exists c :: c in changes && Freed(loaded, c) == Some(e)
  {
    freed := [];
    for i := 0 to |changes|
      invariant forall e :: e in freed <==> exists c :: c in changes[..i] && Freed(loaded, c) == Some(e)
    {
      assert forall c :: c in changes[..i + 1] <==> c in changes[..i] || c == changes[i];
      if Freed(loaded, changes[i]).Some? {
        freed := freed + [Freed(loaded, changes[i]).value];
      }
    }
    assert changes[..|changes|] == changes;
  }

  method ValidateCookies(loaded: Table, changes: seq<Change>) returns (error: Option<Malformed>)
    ensures error.None? <==> CookiesOk(loaded, changes)
    ensures error.Some? ==> error.value.DirectoryCookieAllocation? || error.value.Arithmetic?
  {
    if HeaderAt(loaded).None? {
      return None;
    }
    var h := HeaderAt(loaded).value;
    var freed := FreedEntries(loaded, changes);
    var next, allocations, declared := h.nextCookie, 0, 0;
    for i := 0 to |changes|
      invariant allocations == NewCookies(loaded, changes, i) && next == h.nextCookie + allocations
      invariant declared == Declared(changes[..i], true) <= U64_MAX
      invariant forall j | 0 <= j < i :: TakesNextCookie(h, loaded, changes, j) && KeepsCookie(loaded, changes[j])
    {
      var c := changes[i];
      assert changes[..i + 1][..i] == changes[..i];
      if c.Insert? && c.record.EntryRecord? {
        var transfer := exists e :: e in freed && SameLink(e, c.record.entry);
        assert transfer <==> Transfers(loaded, changes, c.record.entry) by {
          FreedMeansTransfer(loaded, changes, freed, c.record.entry);
        }
        if !transfer {
          if c.record.entry.cookie != next {
            assert !TakesNextCookie(h, loaded, changes, i);
            return Some(DirectoryCookieAllocation);
          }
          if CheckedNext(next).None? {
            assert !TakesNextCookie(h, loaded, changes, i);
            return Some(Arithmetic);
          }
          next := next + 1;
          allocations := allocations + 1;
        }
      } else if !KeepsCookie(loaded, c) {
        return Some(DirectoryCookieAllocation);
      } else if c.AdvanceCookie? {
        if CheckedAdd(declared, c.count).None? {
          DeclaredGrows(changes, i + 1, true);
          return Some(Arithmetic);
        }
        declared := declared + c.count;
      }
    }
    assert changes[..|changes|] == changes;
    return if allocations != declared then Some(DirectoryCookieAllocation) else None;
  }

  lemma FreedMeansTransfer(loaded: Table, changes: seq<Change>, freed: seq<Entry>, entry: Entry)
    requires forall e :: e in freed <==> exists c :: c in changes && Freed(loaded, c) == Some(e)
    ensures (exists e :: e in freed && SameLink(e, entry)) <==> Transfers(loaded, changes, entry)
  {
    if c :| c in changes && Freed(loaded, c).Some? && SameLink(Freed(loaded, c).value, entry) {
      assert Freed(loaded, c).value in freed;
    }
  }

  // ------------------------------------------------------------ monotonicity

  /** `c` changes the set of names under directory `p`. */
  predicate Renames(loaded: Table, c: Change, p: InodeId)
  {
    match c
    case Insert(_, EntryRecord(e)) => e.parent == p
    case Replace(_, EntryRecord(e)) => e.parent == p
    case Delete(k) => Freed(loaded, c).Some? && Freed(loaded, c).value.parent == p
    case MoveEntry(source, _, e) => source == p || e.parent == p
    case _ => false
  }

  ghost predicate NamespaceParent(loaded: Table, changes: seq<Change>, p: InodeId)
  {
    exists c :: c in changes && Renames(loaded, c, p)
  }

  /** `c` moves the directory generation of `p` one up. */
  predicate AdvancesDirectory(loaded: Table, c: Change, p: InodeId)
  {
    match c
    case BumpDirectoryGeneration(i) => i == p
    case Replace(k, InodeRecord(n)) =>
      && k == InodeKey(p) && InodeAt(loaded, p).Some?
      && DirectoryGeneration(InodeAt(loaded, p).value).Some? && DirectoryGeneration(n).Some?
      && CheckedNext(DirectoryGeneration(InodeAt(loaded, p).value).value) == DirectoryGeneration(n)
    case _ => false
  }

  function FirstDeleted(loaded: Table, changes: seq<Change>, child: InodeId, parent: InodeId): Option<Entry>
  {
    if changes == [] then None
    else if changes[0].Delete? && Freed(loaded, changes[0]).Some?
            && Freed(loaded, changes[0]).value.child == child
            && Freed(loaded, changes[0]).value.parent == parent
      then Freed(loaded, changes[0])
    else FirstDeleted(loaded, changes[1..], child, parent)
  }

  function FirstInserted(changes: seq<Change>, child: InodeId, parent: InodeId): Option<Entry>
  {
    if changes == [] then None
    else if changes[0].Insert? && changes[0].record.EntryRecord?
            && changes[0].record.entry.child == child && changes[0].record.entry.parent == parent
      then Some(changes[0].record.entry)
    else FirstInserted(changes[1..], child, parent)
  }

  /** A directory changes its parent only together with the entry that names it. */
  predicate ParentChangeOk(loaded: Table, changes: seq<Change>, current: Inode, next: Inode)
  {
    var was := DirectoryParent(current);
    var now := DirectoryParent(next);
    if was.None? || now.None? then was == now
    else if was == now then true
    else if exists c :: c in changes && c.MoveEntry? && Freed(loaded, c).Some?
              && c.sourceParent == was.value && c.destination.parent == now.value
              && c.destination.child == current.id && c.destination.cookie == Freed(loaded, c).value.cookie
      then true
    else
      var deleted := FirstDeleted(loaded, changes, current.id, was.value);
      var inserted := FirstInserted(changes, current.id, now.value);
      deleted.Some? && inserted.Some? && deleted.value.cookie == inserted.value.cookie
  }

  predicate DirectoryStepOk(current: Inode, next: Inode, renamed: bool)
  {
    match (DirectoryGeneration(current), DirectoryGeneration(next))
    case (Some(a), Some(b)) => if renamed then CheckedNext(a) == Some(b) else a == b
    case (None, None) => true
    case _ => false
  }

  /** What a replaced row may change. */
  predicate ReplacementOk(loaded: Table, changes: seq<Change>, parents: set<InodeId>, c: Change)
  {
    c.Replace? && c.key in loaded ==>
      match (loaded[c.key], c.record)
      case (FilesystemRecord(a), FilesystemRecord(b)) =>
        a.root == b.root && a.nextQidPath == b.nextQidPath && a.nextCookie == b.nextCookie
        && a.policyGeneration == b.policyGeneration
      case (InodeRecord(a), InodeRecord(b)) =>
        && Kind(a.data) == Kind(b.data)
        && CheckedNext(a.inodeGeneration) == Some(b.inodeGeneration)
        && Content(a) == Content(b) && ContentFile(a) == ContentFile(b)
        && DirectoryStepOk(a, b, a.id in parents)
        && ParentChangeOk(loaded, changes, a, b)
      case (EntryRecord(a), EntryRecord(b)) => a.cookie == b.cookie && a.parent == b.parent
      case (LockRecord(a), LockRecord(b)) => CheckedNext(a.generation) == Some(b.generation)
      case (OrphanRecord(a), OrphanRecord(b)) => a.orphanedRevision == b.orphanedRevision
      case _ => true
  }

  /** The directories whose names the request changes. */
  function Parents(loaded: Table, changes: seq<Change>): (r: set<InodeId>)
  {
    if changes == [] then {}
    else Parents(loaded, changes[..|changes| - 1]) + ParentsOf(loaded, changes[|changes| - 1])
  }

  function ParentsOf(loaded: Table, c: Change): (r: set<InodeId>)
    ensures forall p :: p in r <==> Renames(loaded, c, p)
  {
    match c
    case Insert(_, EntryRecord(e)) => {e.parent}
    case Replace(_, EntryRecord(e)) => {e.parent}
    case Delete(k) => if Freed(loaded, c).Some? then {Freed(loaded, c).value.parent} else {}
    case MoveEntry(source, _, e) => {source, e.parent}
    case _ => {}
  }

  lemma {:induction false} ParentsAre(loaded: Table, changes: seq<Change>, p: InodeId)
    ensures p in Parents(loaded, changes) <==> NamespaceParent(loaded, changes, p)
    decreases |changes|
  {
    if changes != [] {
      var init := changes[..|changes| - 1];
      ParentsAre(loaded, init, p);
      assert forall c :: c in changes <==> c in init || c == changes[|changes| - 1];
    }
  }

  ghost predicate MonotonicOk(loaded: Table, changes: seq<Change>)
  {
    FilesystemKey in loaded ==>
      && (forall p | p in Parents(loaded, changes) :: SomeAdvances(loaded, changes, p))
      && (forall c | c in changes :: ReplacementOk(loaded, changes, Parents(loaded, changes), c))
  }

  method CollectParents(loaded: Table, changes: seq<Change>) returns (parents: set<InodeId>)
    ensures parents == Parents(loaded, changes)
  {
    parents := {};
    for i := 0 to |changes|
      invariant parents == Parents(loaded, changes[..i])
    {
      assert changes[..i + 1][..i] == changes[..i];
      parents := parents + ParentsOf(loaded, changes[i]);
    }
    assert changes[..|changes|] == changes;
  }

  predicate SomeAdvances(loaded: Table, changes: seq<Change>, p: InodeId)
  {
    exists c :: c in changes && AdvancesDirectory(loaded, c, p)
  }

  method AllAdvance(loaded: Table, changes: seq<Change>, parents: set<InodeId>) returns (ok: bool)
    ensures ok <==> forall p | p in parents :: SomeAdvances(loaded, changes, p)
  {
    var rest := parents;
    while rest != {}
      invariant rest <= parents
      invariant forall p | p in parents && p !in rest :: SomeAdvances(loaded, changes, p)
      decreases |rest|
    {
      var p :| p in rest;
      if !SomeAdvances(loaded, changes, p) {
        return false;
      }
      rest := rest - {p};
    }
    return true;
  }

  method ValidateMonotonic(loaded: Table, changes: seq<Change>) returns (error: Option<Malformed>)
    ensures error.None? <==> MonotonicOk(loaded, changes)
    ensures error.Some? ==> error.value.NamespaceGeneration? || error.value.NonMonotonicTransition?
  {
    if FilesystemKey !in loaded {
      return None;
    }
    var parents := CollectParents(loaded, changes);
    var advance := AllAdvance(loaded, changes, parents);
    if !advance {
      return Some(NamespaceGeneration);
    }
    for i := 0 to |changes|
      invariant forall j | 0 <= j < i :: ReplacementOk(loaded, changes, parents, changes[j])
    {
      if !ReplacementOk(loaded, changes, parents, changes[i]) {
        return Some(NonMonotonicTransition);
      }
    }
    return None;
  }

  // ---------------------------------------------------------- attribute staging

  predicate PublishesXattr(c: Change, staging: XattrStaging)
  {
    (c.Insert? || c.Replace?) && c.record.XattrRecord?
    && c.record.xattr.inode == staging.inode && c.record.xattr.name == staging.name
  }

  predicate StagingOk(loaded: Table, changes: seq<Change>, c: Change)
  {
    && (c.PublishXattrStaging? ==>
          var k := XattrStagingKey(c.staging);
          && k in loaded && loaded[k].XattrStagingRecord?
          && loaded[k].staging.inode == c.inode && loaded[k].staging.name == c.name
          && |loaded[k].staging.bytes| == loaded[k].staging.expectedSize)
    && (c.Delete? && c.key.XattrStagingKey? && c.key in loaded && loaded[c.key].XattrStagingRecord?
        ==> forall d | d in changes :: !PublishesXattr(d, loaded[c.key].staging))
  }

  ghost predicate XattrsOk(loaded: Table, changes: seq<Change>)
  {
    forall c | c in changes :: StagingOk(loaded, changes, c)
  }

  method ValidateXattrs(loaded: Table, changes: seq<Change>) returns (error: Option<Malformed>)
    ensures error.None? <==> XattrsOk(loaded, changes)
    ensures error.Some? ==> error.value.XattrPublicationRequired? || error.value.InvalidXattrStaging?
  {
    for i := 0 to |changes|
      invariant forall j | 0 <= j < i :: StagingOk(loaded, changes, changes[j])
    {
      if !StagingOk(loaded, changes, changes[i]) {
        return Some(if changes[i].Delete? then XattrPublicationRequired else InvalidXattrStaging);
      }
    }
    return None;
  }

  // ------------------------------------------------------------------- all

  ghost predicate TransitionsOk(loaded: Table, changes: seq<Change>)
  {
    && CookiesOk(loaded, changes) && QidPathsOk(loaded, changes)
    && MonotonicOk(loaded, changes) && XattrsOk(loaded, changes)
  }

  /** The error belongs to the first of the four validators that fails. */
  ghost predicate TransitionFault(loaded: Table, changes: seq<Change>, error: Malformed)
  {
    if !CookiesOk(loaded, changes) then error.DirectoryCookieAllocation? || error.Arithmetic?
    else if !QidPathsOk(loaded, changes) then error.QidPathAllocation? || error.Arithmetic?
    else if !MonotonicOk(loaded, changes) then error.NamespaceGeneration? || error.NonMonotonicTransition?
    else !XattrsOk(loaded, changes) && (error.XattrPublicationRequired? || error.InvalidXattrStaging?)
  }

  method ValidateTransitions(loaded: Table, changes: seq<Change>) returns (error: Option<Malformed>)
    ensures error.None? <==> TransitionsOk(loaded, changes)
    ensures error.Some? ==> TransitionFault(loaded, changes, error.value)
  {
    hide CookiesOk, QidPathsOk, MonotonicOk, XattrsOk;
    error := ValidateCookies(loaded, changes);
    if error.None? {
      error := ValidateQidPaths(loaded, changes);
    }
    if error.None? {
      error := ValidateMonotonic(loaded, changes);
    }
    if error.None? {
      error := ValidateXattrs(loaded, changes);
    }
  }

  // ------------------------------------------------------- rows they look at

  /** The tables have the same rows where the changes write. */
  ghost predicate Agree(a: Table, b: Table, changes: seq<Change>)
  {
    forall c, k | c in changes && Touches(c, k) :: Lookup(a, k) == Lookup(b, k)
  }

  lemma FreedAgrees(a: Table, b: Table, changes: seq<Change>, c: Change)
    requires Agree(a, b, changes) && c in changes
    ensures Freed(a, c) == Freed(b, c)
  {
    if c.Delete? {
      assert Touches(c, c.key);
    } else if c.MoveEntry? {
      assert Touches(c, SourceKey(c));
    }
  }

  lemma ReplacedAgrees(a: Table, b: Table, changes: seq<Change>, c: Change)
    requires Agree(a, b, changes) && c in changes && c.Replace?
    ensures Lookup(a, c.key) == Lookup(b, c.key)
  {
    assert Touches(c, c.key);
  }

  lemma NeedsCookieAgrees(a: Table, b: Table, changes: seq<Change>, c: Change)
    requires Agree(a, b, changes)
    ensures NeedsCookie(a, changes, c) == NeedsCookie(b, changes, c)
  {
    forall d | d in changes ensures Freed(a, d) == Freed(b, d) {
      FreedAgrees(a, b, changes, d);
    }
  }

  lemma {:induction false} NewCookiesAgree(a: Table, b: Table, changes: seq<Change>, n: nat)
    requires Agree(a, b, changes) && n <= |changes|
    ensures NewCookies(a, changes, n) == NewCookies(b, changes, n)
    decreases n
  {
    if n > 0 {
      NewCookiesAgree(a, b, changes, n - 1);
      NeedsCookieAgrees(a, b, changes, changes[n - 1]);
    }
  }

  lemma CookiesAgree(a: Table, b: Table, changes: seq<Change>)
    requires Agree(a, b, changes) && HeaderAt(a) == HeaderAt(b) && CookiesOk(a, changes)
    ensures CookiesOk(b, changes)
  {
    hide Agree, NeedsCookie, NewCookies;
    NewCookiesAgree(a, b, changes, |changes|);
    forall i | 0 <= i < |changes| && HeaderAt(b).Some?
      ensures TakesNextCookie(HeaderAt(b).value, b, changes, i) && KeepsCookie(b, changes[i])
    {
      assert TakesNextCookie(HeaderAt(a).value, a, changes, i) && KeepsCookie(a, changes[i]);
      NeedsCookieAgrees(a, b, changes, changes[i]);
      NewCookiesAgree(a, b, changes, i);
      FreedAgrees(a, b, changes, changes[i]);
      if changes[i].Replace? {
        ReplacedAgrees(a, b, changes, changes[i]);
      }
    }
  }

  lemma QidPathsAgree(a: Table, b: Table, changes: seq<Change>)
    requires Agree(a, b, changes) && HeaderAt(a) == HeaderAt(b) && QidPathsOk(a, changes)
    ensures QidPathsOk(b, changes)
  {
    hide Agree, TakesNextQid;
    forall i | 0 <= i < |changes| && HeaderAt(b).Some? ensures KeepsQid(b, changes[i]) {
      assert KeepsQid(a, changes[i]);
      if changes[i].Replace? {
        ReplacedAgrees(a, b, changes, changes[i]);
      }
    }
  }

  lemma ParentsAgree(a: Table, b: Table, changes: seq<Change>)
    requires Agree(a, b, changes)
    ensures Parents(a, changes) == Parents(b, changes)
  {
    hide Agree, Parents;
    forall p ensures p in Parents(a, changes) <==> p in Parents(b, changes) {
      ParentsAre(a, changes, p);
      ParentsAre(b, changes, p);
      forall c | c in changes ensures Renames(a, c, p) <==> Renames(b, c, p) {
        FreedAgrees(a, b, changes, c);
      }
    }
  }

  lemma {:induction false} FirstDeletedAgrees(a: Table, b: Table, changes: seq<Change>, child: InodeId, parent: InodeId)
    requires Agree(a, b, changes)
    ensures FirstDeleted(a, changes, child, parent) == FirstDeleted(b, changes, child, parent)
    decreases |changes|
  {
    if changes != [] {
      FreedAgrees(a, b, changes, changes[0]);
      FirstDeletedAgrees(a, b, changes[1..], child, parent);
    }
  }

  lemma ParentChangeAgrees(a: Table, b: Table, changes: seq<Change>, current: Inode, next: Inode)
    requires Agree(a, b, changes)
    ensures ParentChangeOk(a, changes, current, next) == ParentChangeOk(b, changes, current, next)
  {
    hide Agree, FirstDeleted, FirstInserted;
    forall c | c in changes ensures Freed(a, c) == Freed(b, c) {
      FreedAgrees(a, b, changes, c);
    }
    if current.data.DirectoryData? {
      FirstDeletedAgrees(a, b, changes, current.id, current.data.parent);
    }
  }

  lemma ReplacementAgrees(a: Table, b: Table, changes: seq<Change>, c: Change)
    requires Agree(a, b, changes) && c in changes
    ensures ReplacementOk(a, changes, Parents(a, changes), c) == ReplacementOk(b, changes, Parents(b, changes), c)
  {
    hide Agree, ParentChangeOk, Parents;
    ParentsAgree(a, b, changes);
    if c.Replace? {
      ReplacedAgrees(a, b, changes, c);
      if c.key in a && a[c.key].InodeRecord? && c.record.InodeRecord? {
        ParentChangeAgrees(a, b, changes, a[c.key].node, c.record.node);
      }
    }
  }

  lemma AdvancesAgree(a: Table, b: Table, changes: seq<Change>, p: InodeId)
    requires Agree(a, b, changes)
    ensures SomeAdvances(a, changes, p) == SomeAdvances(b, changes, p)
  {
    hide Agree;
    forall c | c in changes ensures AdvancesDirectory(a, c, p) == AdvancesDirectory(b, c, p) {
      if c.Replace? {
        ReplacedAgrees(a, b, changes, c);
      }
    }
  }

  lemma MonotonicAgrees(a: Table, b: Table, changes: seq<Change>)
    requires Agree(a, b, changes) && (FilesystemKey in b ==> FilesystemKey in a) && MonotonicOk(a, changes)
    ensures MonotonicOk(b, changes)
  {
    hide Agree, Parents, ReplacementOk, SomeAdvances;
    if FilesystemKey in b {
      ParentsAgree(a, b, changes);
      forall p | p in Parents(b, changes) ensures SomeAdvances(b, changes, p) {
        AdvancesAgree(a, b, changes, p);
      }
      forall c | c in changes ensures ReplacementOk(b, changes, Parents(b, changes), c) {
        ReplacementAgrees(a, b, changes, c);
      }
    }
  }

  lemma XattrsAgree(a: Table, b: Table, changes: seq<Change>)
    requires Agree(a, b, changes) && XattrsOk(a, changes)
    ensures XattrsOk(b, changes)
  {
    forall c | c in changes ensures StagingOk(b, changes, c) {
      assert StagingOk(a, changes, c);
      if c.PublishXattrStaging? {
        assert Touches(c, XattrStagingKey(c.staging));
      } else if c.Delete? {
        assert Touches(c, c.key);
      }
    }
  }

  /** The validators look only at the header and at rows the changes write. */
  lemma TransitionsAgree(a: Table, b: Table, changes: seq<Change>)
    requires Agree(a, b, changes) && TransitionsOk(a, changes)
    requires Lookup(a, FilesystemKey) == Lookup(b, FilesystemKey)
    ensures TransitionsOk(b, changes)
  {
    hide Agree, CookiesOk, QidPathsOk, MonotonicOk, XattrsOk;
    CookiesAgree(a, b, changes);
    QidPathsAgree(a, b, changes);
    MonotonicAgrees(a, b, changes);
    XattrsAgree(a, b, changes);
  }
}
