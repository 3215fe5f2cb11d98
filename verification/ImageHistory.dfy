/** The whole image over runs of the store (crates/w9pt-fs-state/src/records.rs:1678-2016,
    crates/w9pt-fs-state/src/testing/memory.rs:529): within the caller conditions every
    reachable table is one the whole-image validator accepts. */
module ImageHistory {
  import opened Records
  import opened Requests
  import opened Applying
  import opened Admission
  import opened Namespace
  import opened Accounting
  import opened Allocation
  import opened LockTable
  import opened ContentHistory
  import opened Authority
  import opened Invariants
  import opened Coherence
  import opened Histories
  import opened WholeImage

  /** A healthy filesystem, or none. */
  ghost predicate Sound(t: Table)
  {
    if HeaderAt(t).Some? then Healthy(t) else Vacant(t)
  }

  /** Sound tables are those the validator accepts at some depth. */
  lemma SoundIffImage(t: Table)
    requires WellKeyed(t) && ConstraintsHold(t)
    ensures Sound(t) <==> exists depth: nat :: ImageOk(t, depth)
  {
    hide ImageOk, Healthy, Vacant, AncestryBounded, ConstraintsHold, WellKeyed, Unique;
    UniqueFromConstraints(t);
    if Sound(t) {
      var depth := 0;
      if HeaderAt(t).Some? {
        HealthyIsTree(t);
        depth := TreeFitsSomeDepth(t);
      }
      ImageIffHealthy(t, depth);
      assert ImageOk(t, depth);
    }
    if depth: nat :| ImageOk(t, depth) {
      ImageIffHealthy(t, depth);
    }
  }

  // ------------------------------------------------ ledger and lease rows

  lemma SameMarks(a: Table, b: Table)
    requires SameFiles(a, b) && WellKeyed(b) && Healthy(a)
    ensures HeaderAt(b) == HeaderAt(a) && HeaderAt(b).Some?
    ensures CookiesBelow(b, HeaderAt(b).value.nextCookie) && QidsBelow(b, HeaderAt(b).value.nextQidPath)
  {
    hide Tree, Accounted, ConflictFree, Unique, Matched, OwnersBound, WellKeyed;
    assert HeaderAt(a).Some? by { HealthyHasHeader(a); }
    SameHeader(a, b);
    SameCookieInv(a, b);
    SameQids(a, b, HeaderAt(a).value.nextQidPath);
  }

  lemma HealthyHasHeader(t: Table)
    requires Healthy(t)
    ensures HeaderAt(t).Some?
  {
  }

  lemma SameOwners(a: Table, b: Table)
    requires SameFiles(a, b) && WellKeyed(b) && OwnersBound(a)
    ensures OwnersBound(b)
  {
    forall k | k in b && b[k].ContentMetadataRecord? ensures OwnerRowOk(b, b[k].metadata) {
      assert Names(b[k], k) && Lookup(a, k) == Lookup(b, k);
      assert OwnerRowOk(a, a[k].metadata);
      SameSets(a, b, b[k].metadata.owner);
    }
  }

  /** Ledger and lease rows are no part of the image. */
  lemma SameSound(a: Table, b: Table)
    requires SameFiles(a, b) && TableInv(b) && Sound(a)
    ensures Sound(b)
  {
    SameHeader(a, b);
    if HeaderAt(a).Some? {
      SameMarks(a, b);
      SameOwners(a, b);
      SameTree(a, b);
      UniqueFromConstraints(b);
    } else {
      forall k | k in b ensures b[k].ContentMetadataRecord? || b[k].MutationRecord? || b[k].WriterLeaseRecord? {
        assert Names(b[k], k);
        if !StoreOwned(k) {
          assert Lookup(a, k) == Lookup(b, k);
        }
      }
    }
  }

  // ------------------------------------------------------------------- runs

  lemma TableInvGives(t: Table)
    requires TableInv(t)
    ensures WellKeyed(t) && ConstraintsHold(t)
  {
  }

  lemma CommitSound(t: Table, q: Request, revision: Revision, depth: nat, t': Table)
    requires TableInv(t) && Sound(t) && Admitted(t, q, revision, depth, t')
    ensures Sound(t') <==> ImageGuard(t, q)
  {
    TableInvGives(t);
    hide TableInv, Sound, Admitted, ImageOk, ImageGuard, ConstraintsHold, WellKeyed;
    SoundIffImage(t);
    var before: nat :| ImageOk(t, before);
    ImageKept(t, q, revision, depth, t', before);
    assert Sound(t') == if HeaderAt(t').Some? then Healthy(t') else Vacant(t') by { SoundIs(t'); }
  }

  lemma SoundIs(t: Table)
    ensures Sound(t) == if HeaderAt(t).Some? then Healthy(t) else Vacant(t)
  {
  }

  /** A step keeps the image sound exactly when it is no commit or its commit meets
      the caller condition. */
  lemma StepSound(s: State, step: Step)
    requires Inv(s) && Inv(Next(s, step)) && Enabled(s, step) && Sound(s.table)
    ensures Sound(Next(s, step).table) <==> (step.Commit? ==> ImageGuard(s.table, step.request))
  {
    hide Inv, Enabled, Next, Sound, ImageGuard, Admitted, Stepped, SameFiles, TableInv, WellKeyed;
    StepFiles(s, step);
    InvTable(s);
    InvTable(Next(s, step));
    if step.Commit? {
      TableInvPreserved(s.table, step.request, s.current + 1, step.depth, step.files);
      CommitSound(s.table, step.request, s.current + 1, step.depth, step.files);
      FilesSymmetric(step.files, Next(s, step).table);
      if Sound(step.files) {
        SameSound(step.files, Next(s, step).table);
      }
      if Sound(Next(s, step).table) {
        SameSound(Next(s, step).table, step.files);
      }
    } else {
      SameSound(s.table, Next(s, step).table);
    }
  }

  ghost predicate ImageGuarded(run: seq<Step>, n: nat)
    requires n <= |run|
  {
    forall x | 0 <= x < n && run[x].Commit? :: ImageGuard(At(FRESH, run, x).table, run[x].request)
  }

  lemma FreshIsSound()
    ensures Sound(FRESH.table)
  {
  }

  lemma {:induction false} SoundOverRun(run: seq<Step>, n: nat)
    requires Runs(FRESH, run) && n <= |run|
    ensures ImageGuarded(run, n) ==> Sound(At(FRESH, run, n).table)
    ensures n > 0 && ImageGuarded(run, n - 1) && !ImageGuarded(run, n) ==> !Sound(At(FRESH, run, n).table)
    decreases n
  {
    hide Inv, Enabled, Next, Sound, ImageGuard;
    if n == 0 {
      FreshIsSound();
    } else if ImageGuarded(run, n - 1) {
      SoundOverRun(run, n - 1);
      InvAlways(run, n - 1);
      InvAlways(run, n);
      assert Takes(FRESH, run, n - 1);
      StepSound(At(FRESH, run, n - 1), run[n - 1]);
    }
  }

  /** From the empty store on, every reachable table is accepted by the whole-image
      validator at some depth as long as every commit meets the caller conditions; the
      first commit that does not leaves a table it rejects at every depth. */
  lemma ImageOverRun(run: seq<Step>, n: nat)
    requires Runs(FRESH, run) && n <= |run|
    ensures ImageGuarded(run, n) ==> exists depth: nat :: ImageOk(At(FRESH, run, n).table, depth)
    ensures n > 0 && ImageGuarded(run, n - 1) && !ImageGuarded(run, n) ==>
      forall depth: nat :: !ImageOk(At(FRESH, run, n).table, depth)
  {
    hide Enabled, Next, Sound, ImageGuard, ImageGuarded, ImageOk, At, Runs;
    SoundOverRun(run, n);
    InvAlways(run, n);
    InvTable(At(FRESH, run, n));
    hide Inv;
    TableInvGives(At(FRESH, run, n).table);
    SoundIffImage(At(FRESH, run, n).table);
  }
}
