/** Acceptance of one request against the record table
    (crates/w9pt-fs-state-postgres/src/commit.rs `execute_once`, between the
    fence check and the ledger insert). */
module Admission {
  import opened Values
  import opened Records
  import opened Requests
  import opened Applying
  import opened Effects
  import opened Loading
  import opened Transitions
  import opened LockTable
  import opened Targeting

  /** Everything the transaction checks, and the table it leaves. */
  ghost predicate Admitted(t: Table, q: Request, revision: Revision, depth: nat, t': Table)
  {
    var loaded := Loaded(t, q);
    && PreflightOk(q)
    && PreconditionsHold(t, q)
    && TransitionsOk(loaded, q.changes)
    && LocksOk(t, q.changes)
    && ApplyAll(t, loaded, q.changes, q, revision) == Done(t')
    && TargetedOk(t', loaded, q.changes, depth)
  }

  datatype Verdict =
    | Accepted(table: Table)
    | Malformed(error: Requests.Malformed)
    | Conflicting(index: nat, kind: ConflictKind)
    | Aborted(recheck: bool)

  /** Precondition `index` is the first that fails, for the reason `kind`. */
  ghost predicate FailsFirst(t: Table, q: Request, index: nat, kind: ConflictKind)
    requires index < |q.preconditions|
  {
    && ConflictOf(q.preconditions[index], t, Loaded(t, q), q) == Some(kind)
    && Explains(kind, q.preconditions[index], Loaded(t, q))
    && forall j | 0 <= j < index :: ConflictOf(q.preconditions[j], t, Loaded(t, q), q).None?
  }

  /** The conflict found past the preconditions: the lowest conflicting lock, or what
      the first refused change reports. */
  ghost predicate FailsLater(t: Table, q: Request, revision: Revision, kind: ConflictKind)
  {
    && PreconditionsHold(t, q) && TransitionsOk(Loaded(t, q), q.changes)
    && if LocksOk(t, q.changes) then ApplyAll(t, Loaded(t, q), q.changes, q, revision) == Refused(Conflict(kind))
       else && kind.LockConflict? && ConflictId(t, q.changes, kind.existing)
            && forall id | ConflictId(t, q.changes, id) :: kind.existing <= id
  }

  ghost predicate RejectedLater(t: Table, q: Request, revision: Revision, depth: nat, error: Requests.Malformed)
  {
    && LocksOk(t, q.changes)
    && match ApplyAll(t, Loaded(t, q), q.changes, q, revision)
       case Refused(why) => why == Rejected(error)
       case Done(t') => error == InvalidRecord && !TargetedOk(t', Loaded(t, q), q.changes, depth)
  }

  /** What the transaction answers, in the order of its checks. */
  ghost predicate Judges(t: Table, q: Request, revision: Revision, depth: nat, v: Verdict)
  {
    match v
    case Accepted(t') => Admitted(t, q, revision, depth, t')
    case Conflicting(index, kind) =>
      if index < |q.preconditions| then FailsFirst(t, q, index, kind)
      else index == |q.preconditions| && FailsLater(t, q, revision, kind)
    case Malformed(error) =>
      && PreconditionsHold(t, q)
      && if TransitionsOk(Loaded(t, q), q.changes) then RejectedLater(t, q, revision, depth, error)
         else TransitionFault(Loaded(t, q), q.changes, error)
    case Aborted(recheck) =>
      && PreconditionsHold(t, q) && TransitionsOk(Loaded(t, q), q.changes) && LocksOk(t, q.changes)
      && ApplyAll(t, Loaded(t, q), q.changes, q, revision) == Refused(ConstraintViolated(recheck))
  }

  lemma JudgedInadmissible(t: Table, q: Request, revision: Revision, depth: nat, v: Verdict)
    requires Judges(t, q, revision, depth, v) && !v.Accepted?
    ensures forall t' :: !Admitted(t, q, revision, depth, t')
  {
    hide TransitionsOk, TransitionFault, LocksOk, TargetedOk, PreflightOk, Loaded, ApplyAll, ConflictOf, ConflictId;
    if v.Conflicting? && v.index < |q.preconditions| {
      assert q.preconditions[v.index] in q.preconditions;
    }
    if v.Malformed? && TransitionsOk(Loaded(t, q), q.changes) {
      assert RejectedLater(t, q, revision, depth, v.error);
    } else if v.Malformed? {
      FaultIsFault(Loaded(t, q), q.changes, v.error);
    }
  }

  lemma FaultIsFault(loaded: Table, changes: seq<Change>, error: Requests.Malformed)
    requires TransitionFault(loaded, changes, error)
    ensures !TransitionsOk(loaded, changes)
  {
    hide CookiesOk, QidPathsOk, MonotonicOk, XattrsOk;
  }

  /** The body of the write transaction, from loading to the targeted checks. */
  method Evaluate(t: Table, q: Request, revision: Revision, depth: nat) returns (v: Verdict)
    requires WellKeyed(t) && PreflightOk(q)
    ensures Judges(t, q, revision, depth, v)
    ensures v.Accepted? ==> Admitted(t, q, revision, depth, v.table)
    ensures !v.Accepted? ==> forall t' :: !Admitted(t, q, revision, depth, t')
  {
    hide TransitionsOk, TransitionFault, LocksOk, TargetedOk, Loaded, ConflictOf, ConflictId, Explains;
    forall w: Verdict | Judges(t, q, revision, depth, w) && !w.Accepted?
      ensures forall t' :: !Admitted(t, q, revision, depth, t')
    {
      JudgedInadmissible(t, q, revision, depth, w);
    }
    var loaded := LoadRecords(t, q);
    var failed := EvaluatePreconditions(t, loaded, q);
    if failed.Some? {
      return Conflicting(failed.value.0, failed.value.1);
    }
    var error := ValidateTransitions(loaded, q.changes);
    if error.Some? {
      return Malformed(error.value);
    }
    var lock := ValidateLockConflicts(t, q.changes);
    if lock.Some? {
      return Conflicting(|q.preconditions|, LockConflict(lock.value));
    }
    var applied := ApplyChanges(t, loaded, q, revision);
    if applied.Refused? {
      match applied.why
      case Conflict(kind) => return Conflicting(|q.preconditions|, kind);
      case Rejected(e) => return Malformed(e);
      case ConstraintViolated(recheck) => return Aborted(recheck);
    }
    LoadedCoversTargets(t, q);
    var ok := ValidateTargeted(applied.table, loaded, q.changes, depth);
    return if ok then Accepted(applied.table) else Malformed(InvalidRecord);
  }

  /** What every later argument uses of an accepted request. */
  ghost predicate Stepped(t: Table, q: Request, revision: Revision, t': Table)
  {
    && WellKeyed(t) && WellKeyed(t')
    && WellShaped(q.changes, q.mutation)
    && Written(t, q.changes, revision, t')
    && (forall c | c in q.changes :: Admits(t, c, q))
    && LoadedFrom(t, Loaded(t, q), q.changes)
  }

  lemma AdmittedSteps(t: Table, q: Request, revision: Revision, depth: nat, t': Table)
    requires WellKeyed(t) && Admitted(t, q, revision, depth, t')
    ensures Stepped(t, q, revision, t')
  {
    LoadedCoversTargets(t, q);
    AppliedIsWritten(t, Loaded(t, q), q.changes, q, revision);
  }

  /** The pieces of an acceptance. */
  lemma AdmittedParts(t: Table, q: Request, revision: Revision, depth: nat, t': Table)
    requires Admitted(t, q, revision, depth, t')
    ensures PreflightOk(q) && WellShaped(q.changes, q.mutation)
    ensures DistinctTargets(q.changes) && ContentPaired(q.changes)
    ensures TransitionsOk(Loaded(t, q), q.changes) && LocksOk(t, q.changes)
    ensures ApplyAll(t, Loaded(t, q), q.changes, q, revision) == Done(t')
    ensures TargetedOk(t', Loaded(t, q), q.changes, depth)
  {
  }

  lemma UntouchedKept(t: Table, q: Request, revision: Revision, t': Table, k: Key)
    requires Stepped(t, q, revision, t') && !Touched(q.changes, k)
    ensures Lookup(t', k) == Lookup(t, k)
  {
  }

  /** What a stepped request says of one of its changes, at a key the change declares. */
  lemma ChangeAt(t: Table, q: Request, revision: Revision, t': Table, c: Change, k: Key)
    requires Stepped(t, q, revision, t') && c in q.changes && Touches(c, k)
    ensures ShapeError(c, q.mutation).None? && Admits(t, c, q)
    ensures Lookup(Loaded(t, q), k) == Lookup(t, k)
    ensures !Allocates(c) ==> Lookup(t', k) == Value(Writes(t, t, c, revision), k)
  {
  }

  /** Rows lie under the keys they name, before and after. */
  lemma RowNamed(t: Table, q: Request, revision: Revision, t': Table, k: Key)
    requires Stepped(t, q, revision, t')
    ensures (k in t ==> Names(t[k], k)) && (k in t' ==> Names(t'[k], k))
  {
  }

  lemma SteppedParts(t: Table, q: Request, revision: Revision, t': Table)
    requires Stepped(t, q, revision, t')
    ensures WellKeyed(t) && WellKeyed(t') && WellShaped(q.changes, q.mutation)
    ensures Written(t, q.changes, revision, t')
  {
  }
}
