/** Directory enumeration while the store runs on
    (crates/w9pt-fs-state-postgres/src/read.rs:904-1006). */
module EnumerationHistory {
  import opened Values
  import opened Records
  import opened Applying
  import opened Accounting
  import opened Authority
  import opened Invariants
  import opened Coherence
  import opened Enumeration

  /** Page `i` was read in state `at[i]` of the run, and time does not go back. */
  ghost predicate ReadDuring(run: seq<Step>, at: seq<nat>, visits: seq<Visit>)
  {
    && |at| == |visits|
    && (forall i | 0 <= i < |at| :: at[i] <= |run| && visits[i].table == At(FRESH, run, at[i]).table)
    && (forall i, j | 0 <= i < j < |at| :: at[i] <= at[j])
  }

  /** Reachable tables are ones a directory page can be read from. */
  lemma Readable(s: State)
    requires Inv(s)
    ensures WellKeyed(s.table) && ConstraintsHold(s.table) && NoDangling(s.table)
  {
    InvTable(s);
    hide Inv;
  }

  /** The client's loop: it reads page after page, each in whatever state the store is
      in then, and gives up after `patience` pages or on an entry larger than its byte
      bound. */
  method EnumerateDirectory(states: nat -> State, d: InodeId, maxItems: nat, maxBytes: nat, patience: nat)
    returns (visits: seq<Visit>, complete: bool)
    requires (forall n :: Inv(states(n))) && maxItems > 0
    ensures forall i | 0 <= i < |visits| :: visits[i].table == states(i).table
    ensures complete ==> Enumerated(d, visits)
    ensures !complete && |visits| < patience ==>
      exists e, after :: NextEntry(states(|visits|).table, d, after, e) && EntryBytes(e) > maxBytes
  {
    hide Inv, PageFacts, Fills, NextEntry;
    visits, complete := [], false;
    var after := 0;
    while |visits| < patience
      invariant |visits| <= patience
      invariant forall i | 0 <= i < |visits| :: visits[i].table == states(i).table
      invariant Resumed(d, visits, after)
      decreases patience - |visits|
    {
      var t := states(|visits|).table;
      Readable(states(|visits|));
      var page := ReadDirectoryPage(t, d, after, maxItems, maxBytes);
      if page.PageTooSmall? {
        return;
      }
      ResumedNext(d, visits, after, Visit(t, after, page.entries, page.resume));
      visits := visits + [Visit(t, after, page.entries, page.resume)];
      if page.resume.None? {
        return visits, true;
      }
      after := page.resume.value;
    }
  }

  /** The pages so far, each resuming where the one before stopped, and the cookie to
      go on from. */
  ghost predicate Resumed(d: InodeId, visits: seq<Visit>, after: nat)
  {
    && (if visits == [] then after == 0 else visits[0].after == 0 && visits[|visits| - 1].resume == Some(after))
    && (forall i | 0 <= i < |visits|
          :: PageFacts(visits[i].table, d, visits[i].after, visits[i].entries, visits[i].resume))
    && (forall i, j | 0 <= i < j < |visits| && j == i + 1 :: visits[i].resume == Some(visits[j].after))
  }

  lemma ResumedNext(d: InodeId, visits: seq<Visit>, after: nat, v: Visit)
    requires Resumed(d, visits, after) && v.after == after
    requires PageFacts(v.table, d, v.after, v.entries, v.resume)
    ensures v.resume.Some? ==> Resumed(d, visits + [v], v.resume.value)
    ensures v.resume.None? ==> Enumerated(d, visits + [v])
  {
    hide PageFacts;
  }

  lemma LinkCookie(t: Table, d: InodeId, cookie: nat, child: InodeId)
    requires ConstraintsHold(t) && Linked(t, d, cookie, child)
    ensures cookie > 0
  {
    var e :| UnderDirectory(t, d, e) && e.cookie == cookie && e.child == child;
    assert SchemaAllows(t[EntryKey(d, e.name)]);
  }

  /** A link that stands from the first page to the last, under whatever names and
      through whatever transactions, is emitted exactly once. */
  lemma EmittedOnceOverRun(run: seq<Step>, at: seq<nat>, d: InodeId, visits: seq<Visit>, cookie: nat, child: InodeId)
      returns (i: nat, x: nat)
    requires Runs(FRESH, run) && Enumerated(d, visits) && ReadDuring(run, at, visits)
    requires forall n | at[0] <= n <= at[|at| - 1] :: Linked(At(FRESH, run, n).table, d, cookie, child)
    ensures i < |visits| && x < |visits[i].entries|
    ensures visits[i].entries[x].cookie == cookie && visits[i].entries[x].child == child
    ensures forall j: nat, y: nat | j < |visits| && y < |visits[j].entries| && visits[j].entries[y].cookie == cookie
              :: j == i && y == x
  {
    hide Enabled, Next, Linked, At, Runs;
    forall v | v in visits ensures Linked(v.table, d, cookie, child) {
      var j :| 0 <= j < |visits| && visits[j] == v;
      assert at[0] <= at[j] <= at[|at| - 1];
    }
    InvAlways(run, at[0]);
    Readable(At(FRESH, run, at[0]));
    hide Inv;
    LinkCookie(visits[0].table, d, cookie, child);
    i, x := EmittedExactlyOnce(d, visits, cookie, child);
  }
}
