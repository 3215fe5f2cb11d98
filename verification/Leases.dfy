/** Writer fences and the idempotent lease protocol
    (crates/w9pt-fs-state/src/lease.rs, crates/w9pt-fs-state-postgres/src/lease.rs). */
module Leases {
  import opened Values
  import opened Records
  import opened Requests
  import opened Encoding

  datatype LeaseRequest =
    | Acquire(id: OperationId, scope: ScopeId, holder: WriterId, lease: LeaseId, duration: nat)
    | Renew(id: OperationId, fence: Fence, duration: nat)
    | Release(id: OperationId, fence: Fence)

  datatype Grant = Grant(fence: Fence, deadline: nat)

  datatype LeaseRejection =
    | Busy(grant: Grant) | StaleFence | ExpiredLease | InvalidWriterScope | InvalidDuration
    | OperationMismatch | HistoryFull | FencingTokenExhausted

  datatype LeaseOutcome =
    | Granted(grant: Grant) | AcquireReplayed(grant: Grant)
    | Renewed(grant: Grant) | RenewReplayed(grant: Grant)
    | Released | ReleaseReplayed
    | LeaseRejected(reason: LeaseRejection)

  datatype FenceValidation = Current | Stale | Expired

  function ScopeOf(r: LeaseRequest): ScopeId
  {
    match r
    case Acquire(_, scope, _, _, _) => scope
    case Renew(_, fence, _) => fence.scope
    case Release(_, fence) => fence.scope
  }

  // ------------------------------------------------------------ pure protocol

  function FenceOf(l: WriterLease): Fence
  {
    Fence(l.scope, l.holder, l.lease, l.token)
  }

  function GrantOf(l: WriterLease): Grant
  {
    Grant(FenceOf(l), l.deadline)
  }

  function ValidateFence(presented: Fence, current: Option<WriterLease>, now: nat): FenceValidation
  {
    if current.None? || FenceOf(current.value) != presented then Stale
    else if now >= current.value.deadline then Expired
    else Current
  }

  /** A fence is current exactly for the exact holder of an unexpired lease. */
  lemma FenceIsExact(presented: Fence, current: Option<WriterLease>, now: nat)
    ensures ValidateFence(presented, current, now).Current? <==>
      exists l :: current == Some(l) && now < l.deadline && l.scope == presented.scope
        && l.holder == presented.holder && l.lease == presented.lease && l.token == presented.token
    ensures ValidateFence(presented, current, now).Expired? <==>
      exists l :: current == Some(l) && l.deadline <= now && FenceOf(l) == presented
  {
    if current.Some? {
      var l := current.value;
      assert current == Some(l);
    }
  }

  function NextToken(last: Option<nat>): Option<nat>
  {
    if last.None? then Some(1) else CheckedNext(last.value)
  }

  function Latest(a: Option<nat>, b: Option<nat>): Option<nat>
  {
    if a.None? then b else if b.None? then a else Some(if a.value < b.value then b.value else a.value)
  }

  datatype Decision = Activate(lease: WriterLease) | Deactivate | Refuse(reason: LeaseRejection)

  /** `grant_writer_lease`, `renew_current_lease` and `validate_lease_release`. */
  function Decide(r: LeaseRequest, current: Option<WriterLease>, greatest: Option<nat>, now: nat,
                  revision: Revision): Decision
  {
    match r
    case Acquire(_, scope, holder, lease, duration) =>
      if current.Some? && now < current.value.deadline then Refuse(Busy(GrantOf(current.value)))
      else
        var token := NextToken(Latest(if current.Some? then Some(current.value.token) else None, greatest));
        var deadline := CheckedAdd(now, duration);
        if token.None? then Refuse(FencingTokenExhausted)
        else if deadline.None? then Refuse(InvalidDuration)
        else Activate(WriterLease(scope, holder, lease, deadline.value, token.value, revision))
    case Renew(_, fence, duration) =>
      (match ValidateFence(fence, current, now)
       case Stale => Refuse(StaleFence)
       case Expired => Refuse(ExpiredLease)
       case Current =>
         var requested := CheckedAdd(now, duration);
         if requested.None? then Refuse(InvalidDuration)
         else
           var kept := current.value.deadline;
           Activate(WriterLease(fence.scope, fence.holder, fence.lease,
                                if requested.value < kept then kept else requested.value,
                                fence.token, revision)))
    case Release(_, fence) =>
      match ValidateFence(fence, current, now)
      case Stale => Refuse(StaleFence)
      case Expired => Refuse(ExpiredLease)
      case Current => Deactivate
  }

  function OutcomeOf(r: LeaseRequest, d: Decision): LeaseOutcome
  {
    match d
    case Refuse(reason) => LeaseRejected(reason)
    case Deactivate => Released
    case Activate(l) => if r.Acquire? then Granted(GrantOf(l)) else Renewed(GrantOf(l))
  }

  /** An activated lease is stamped, sits in the requested scope and, on renewal,
      keeps the presented fence. */
  lemma ActivatedLease(r: LeaseRequest, current: Option<WriterLease>, greatest: Option<nat>, now: nat,
                       revision: Revision)
    requires Decide(r, current, greatest, now, revision).Activate?
    ensures var l := Decide(r, current, greatest, now, revision).lease;
            l.revision == revision && l.scope == ScopeOf(r) && !r.Release?
            && (r.Renew? ==> FenceOf(l) == r.fence && current.Some? && FenceOf(current.value) == r.fence)
            && (r.Acquire? && greatest.Some? ==> greatest.value < l.token)
  {
  }

  predicate Held(current: Option<WriterLease>, now: nat)
  {
    current.Some? && now < current.value.deadline
  }

  /** When each request succeeds, and what it grants: an unexpired lease is never
      taken over, a grant runs from now, a renewal never shortens, only the exact
      unexpired holder renews or releases. */
  lemma DecidesExactly(r: LeaseRequest, current: Option<WriterLease>, greatest: Option<nat>, now: nat,
                       revision: Revision)
    requires current.Some? ==> greatest == Some(current.value.token)
    ensures var d := Decide(r, current, greatest, now, revision);
      && (r.Acquire? ==>
            && (d.Activate? <==> !Held(current, now) && (greatest.Some? ==> greatest.value < U64_MAX)
                                 && now + r.duration <= U64_MAX)
            && (d.Activate? ==>
                  && d.lease.holder == r.holder && d.lease.lease == r.lease
                  && d.lease.deadline == now + r.duration
                  && d.lease.token == if greatest.Some? then greatest.value + 1 else 1)
            && (Held(current, now) ==> d == Refuse(Busy(GrantOf(current.value))))
            && (!Held(current, now) && greatest.Some? && greatest.value >= U64_MAX
                ==> d == Refuse(FencingTokenExhausted))
            && (!Held(current, now) && (greatest.Some? ==> greatest.value < U64_MAX) && now + r.duration > U64_MAX
                ==> d == Refuse(InvalidDuration)))
      && (r.Renew? ==>
            && (d.Activate? <==> Held(current, now) && FenceOf(current.value) == r.fence
                                 && now + r.duration <= U64_MAX)
            && (d.Activate? ==>
                  && FenceOf(d.lease) == r.fence
                  && d.lease.deadline >= current.value.deadline && d.lease.deadline >= now + r.duration
                  && (d.lease.deadline == current.value.deadline || d.lease.deadline == now + r.duration))
            && (Held(current, now) && FenceOf(current.value) == r.fence && now + r.duration > U64_MAX
                ==> d == Refuse(InvalidDuration)))
      && (r.Release? ==>
            (d.Deactivate? <==> Held(current, now) && FenceOf(current.value) == r.fence))
      && ((r.Renew? || r.Release?) && current.Some? && FenceOf(current.value) == r.fence && !Held(current, now)
          ==> d == Refuse(ExpiredLease))
      && ((r.Renew? || r.Release?) && (current.None? || FenceOf(current.value) != r.fence)
          ==> d == Refuse(StaleFence))
  {
  }

  /** What a first outcome carries: a grant names the requested scope, holder and lease
      with the next token and runs from now, a renewal keeps the presented fence, and a
      busy refusal shows the lease that stands. */
  lemma GrantsExactly(r: LeaseRequest, current: Option<WriterLease>, greatest: Option<nat>, now: nat,
                      revision: Revision)
    requires current.Some? ==> greatest == Some(current.value.token)
    ensures match OutcomeOf(r, Decide(r, current, greatest, now, revision))
            case Granted(g) =>
              r.Acquire? && g.deadline == now + r.duration
              && g.fence == Fence(r.scope, r.holder, r.lease, if greatest.Some? then greatest.value + 1 else 1)
            case Renewed(g) =>
              r.Renew? && g.fence == r.fence && current.Some?
              && g.deadline == if now + r.duration < current.value.deadline then current.value.deadline
                               else now + r.duration
            case Released => r.Release?
            case LeaseRejected(Busy(g)) =>
              r.Acquire? && current.Some? && g.deadline == current.value.deadline
              && g.fence == Fence(current.value.scope, current.value.holder, current.value.lease, current.value.token)
            case LeaseRejected(_) => true
            case _ => false
  {
    DecidesExactly(r, current, greatest, now, revision);
  }

  datatype Staged = Stages(decision: Decision) | RevisionExhausted | OutcomeChanged

  /** `evaluate_and_stage` up to its writes: the request is decided at a placeholder
      revision, and once more at the allocated revision when that succeeds. */
  function Stage(r: LeaseRequest, current: Option<WriterLease>, greatest: Option<nat>, now: nat,
                 head: Revision): Staged
  {
    var provisional := Decide(r, current, greatest, now, 1);
    if provisional.Refuse? then Stages(provisional)
    else if CheckedNext(head).None? then RevisionExhausted
    else if r.Release? then Stages(provisional)
    else
      var final := Decide(r, current, greatest, now, head + 1);
      if final.Refuse? then OutcomeChanged else Stages(final)
  }

  /** The second evaluation never changes the outcome: what is staged is the one
      decision at the allocated revision. */
  lemma StagedOnce(r: LeaseRequest, current: Option<WriterLease>, greatest: Option<nat>, now: nat, head: Revision)
    ensures var d := Decide(r, current, greatest, now, head + 1);
            Stage(r, current, greatest, now, head) ==
              if !d.Refuse? && CheckedNext(head).None? then RevisionExhausted else Stages(d)
  {
  }

  // --------------------------------------------------------------- retention

  datatype StoredOperation = StoredOperation(kind: nat, fingerprint: Bytes, tag: nat, grant: Option<Grant>)

  function KindOf(r: LeaseRequest): nat
  {
    match r case Acquire(_, _, _, _, _) => 1 case Renew(_, _, _) => 2 case Release(_, _) => 3
  }

  /** Tag and grant columns of a retained outcome; other outcomes are never retained. */
  function Retained(r: LeaseRequest, outcome: LeaseOutcome): Option<(nat, Option<Grant>)>
  {
    match (r, outcome)
    case (Acquire(_, _, _, _, _), Granted(g)) => Some((1, Some(g)))
    case (Acquire(_, _, _, _, _), LeaseRejected(Busy(g))) => Some((2, Some(g)))
    case (Acquire(_, _, _, _, _), LeaseRejected(InvalidWriterScope)) => Some((3, None))
    case (Acquire(_, _, _, _, _), LeaseRejected(InvalidDuration)) => Some((4, None))
    case (Acquire(_, _, _, _, _), LeaseRejected(FencingTokenExhausted)) => Some((5, None))
    case (Renew(_, _, _), Renewed(g)) => Some((1, Some(g)))
    case (Renew(_, _, _), LeaseRejected(StaleFence)) => Some((2, None))
    case (Renew(_, _, _), LeaseRejected(ExpiredLease)) => Some((3, None))
    case (Renew(_, _, _), LeaseRejected(InvalidWriterScope)) => Some((4, None))
    case (Renew(_, _, _), LeaseRejected(InvalidDuration)) => Some((5, None))
    case (Release(_, _), Released) => Some((1, None))
    case (Release(_, _), LeaseRejected(StaleFence)) => Some((2, None))
    case (Release(_, _), LeaseRejected(ExpiredLease)) => Some((3, None))
    case (Release(_, _), LeaseRejected(InvalidWriterScope)) => Some((4, None))
    case _ => None
  }

  /** `replay_stored_operation`; `None` is detected corruption. */
  function Replayed(r: LeaseRequest, filesystem: nat, stored: StoredOperation): Option<LeaseOutcome>
  {
    if stored.kind != KindOf(r) || stored.fingerprint != Fingerprint(r, filesystem)
      then Some(LeaseRejected(OperationMismatch))
    else
      match (r, stored.tag, stored.grant)
      case (Acquire(_, _, _, _, _), 1, Some(g)) => Some(AcquireReplayed(g))
      case (Acquire(_, _, _, _, _), 2, Some(g)) => Some(LeaseRejected(Busy(g)))
      case (Acquire(_, _, _, _, _), 3, None) => Some(LeaseRejected(InvalidWriterScope))
      case (Acquire(_, _, _, _, _), 4, None) => Some(LeaseRejected(InvalidDuration))
      case (Acquire(_, _, _, _, _), 5, None) => Some(LeaseRejected(FencingTokenExhausted))
      case (Renew(_, _, _), 1, Some(g)) => Some(RenewReplayed(g))
      case (Renew(_, _, _), 2, None) => Some(LeaseRejected(StaleFence))
      case (Renew(_, _, _), 3, None) => Some(LeaseRejected(ExpiredLease))
      case (Renew(_, _, _), 4, None) => Some(LeaseRejected(InvalidWriterScope))
      case (Renew(_, _, _), 5, None) => Some(LeaseRejected(InvalidDuration))
      case (Release(_, _), 1, None) => Some(ReleaseReplayed)
      case (Release(_, _), 2, None) => Some(LeaseRejected(StaleFence))
      case (Release(_, _), 3, None) => Some(LeaseRejected(ExpiredLease))
      case (Release(_, _), 4, None) => Some(LeaseRejected(InvalidWriterScope))
      case _ => None
  }

  /** What a later exact resubmission reports for a first outcome. */
  function Settled(outcome: LeaseOutcome): LeaseOutcome
  {
    match outcome
    case Granted(g) => AcquireReplayed(g)
    case Renewed(g) => RenewReplayed(g)
    case Released => ReleaseReplayed
    case other => other
  }

  function Store(r: LeaseRequest, filesystem: nat, outcome: LeaseOutcome): StoredOperation
    requires Retained(r, outcome).Some?
  {
    var (tag, grant) := Retained(r, outcome).value;
    StoredOperation(KindOf(r), Fingerprint(r, filesystem), tag, grant)
  }

  lemma DecisionIsRetained(r: LeaseRequest, current: Option<WriterLease>, greatest: Option<nat>, now: nat,
                           revision: Revision)
    ensures Retained(r, OutcomeOf(r, Decide(r, current, greatest, now, revision))).Some?
  {
  }

  /** Storing any evaluated outcome and replaying the same request gives it back. */
  lemma ReplayReturnsRetained(r: LeaseRequest, filesystem: nat, current: Option<WriterLease>,
                              greatest: Option<nat>, now: nat, revision: Revision)
    ensures var outcome := OutcomeOf(r, Decide(r, current, greatest, now, revision));
            && Retained(r, outcome).Some?
            && Replayed(r, filesystem, Store(r, filesystem, outcome)) == Some(Settled(outcome))
  {
    var outcome := OutcomeOf(r, Decide(r, current, greatest, now, revision));
    DecisionIsRetained(r, current, greatest, now, revision);
    match r
    case Acquire(_, _, _, _, _) => assert outcome.Granted? || outcome.LeaseRejected?;
    case Renew(_, _, _) => assert outcome.Renewed? || outcome.LeaseRejected?;
    case Release(_, _) => assert outcome.Released? || outcome.LeaseRejected?;
  }

  // ------------------------------------------------------------- fingerprints

  /** "w9pt-fs-state-lease-v1" and a zero byte. */
  const PREFIX: Bytes := [
    119, 57, 112, 116, 45, 102, 115, 45, 115, 116, 97, 116, 101, 45, 108, 101, 97, 115, 101, 45, 118, 49, 0]
  const ACQUIRE: Bytes := [97, 99, 113, 117, 105, 114, 101]
  const RENEW: Bytes := [114, 101, 110, 101, 119]
  const RELEASE: Bytes := [114, 101, 108, 101, 97, 115, 101]

  predicate Spells(bytes: Bytes, text: string)
  {
    |bytes| == |text| && forall i | 0 <= i < |text| :: bytes[i] == text[i] as nat
  }

  lemma DomainsSpelled()
    ensures Spells(PREFIX[..22], "w9pt-fs-state-lease-v1") && |PREFIX| == 23 && PREFIX[22] == 0
    ensures Spells(ACQUIRE, "acquire") && Spells(RENEW, "renew") && Spells(RELEASE, "release")
    ensures ID_WIDTH == 16 && U64_WIDTH == 8
  {
  }

  function FenceBytes(f: Fence): Bytes
  {
    Be(f.scope, ID_WIDTH) + (Be(f.holder, ID_WIDTH) + (Be(f.lease, ID_WIDTH) + Be(f.token, U64_WIDTH)))
  }

  /** The bytes hashed into the retained request fingerprint. */
  function Fingerprint(r: LeaseRequest, filesystem: nat): Bytes
  {
    PREFIX + (match r
      case Acquire(id, scope, holder, lease, duration) =>
        ACQUIRE + (Be(filesystem, ID_WIDTH) + (Be(id, ID_WIDTH) + (Be(scope, ID_WIDTH)
        + (Be(holder, ID_WIDTH) + (Be(lease, ID_WIDTH) + Be(duration, U64_WIDTH))))))
      case Renew(id, fence, duration) =>
        RENEW + (Be(filesystem, ID_WIDTH) + (Be(id, ID_WIDTH) + (FenceBytes(fence) + Be(duration, U64_WIDTH))))
      case Release(id, fence) =>
        RELEASE + (Be(filesystem, ID_WIDTH) + (Be(id, ID_WIDTH) + (FenceBytes(fence) + Be(0, U64_WIDTH)))))
  }

  function Domain(r: LeaseRequest): Bytes
  {
    match r case Acquire(_, _, _, _, _) => ACQUIRE case Renew(_, _, _) => RENEW case Release(_, _) => RELEASE
  }

  function Parts(r: LeaseRequest, filesystem: nat): seq<Bytes>
  {
    var ids := [Be(filesystem, ID_WIDTH), Be(r.id, ID_WIDTH)];
    match r
    case Acquire(_, scope, holder, lease, duration) =>
      ids + [Be(scope, ID_WIDTH), Be(holder, ID_WIDTH), Be(lease, ID_WIDTH), Be(duration, U64_WIDTH)]
    case Renew(_, f, duration) =>
      ids + [Be(f.scope, ID_WIDTH), Be(f.holder, ID_WIDTH), Be(f.lease, ID_WIDTH), Be(f.token, U64_WIDTH),
             Be(duration, U64_WIDTH)]
    case Release(_, f) =>
      ids + [Be(f.scope, ID_WIDTH), Be(f.holder, ID_WIDTH), Be(f.lease, ID_WIDTH), Be(f.token, U64_WIDTH),
             Be(0, U64_WIDTH)]
  }

  /** The parts from position `i` on, one after the other. */
  function Joined(parts: seq<Bytes>, i: nat): Bytes
    requires i <= |parts|
    decreases |parts| - i
  {
    if i == |parts| then [] else parts[i] + Joined(parts, i + 1)
  }

  lemma PartsJoin(r: LeaseRequest, filesystem: nat)
    ensures Fingerprint(r, filesystem) == (PREFIX + Domain(r)) + Joined(Parts(r, filesystem), 0)
  {
    hide Be;
    var parts := Parts(r, filesystem);
    var n := |parts|;
    assert Joined(parts, n) == [] && Joined(parts, n - 1) == parts[n - 1];
    assert Joined(parts, n - 2) == parts[n - 2] + Joined(parts, n - 1);
    assert Joined(parts, n - 3) == parts[n - 3] + Joined(parts, n - 2);
    assert Joined(parts, n - 4) == parts[n - 4] + Joined(parts, n - 3);
    assert Joined(parts, n - 5) == parts[n - 5] + Joined(parts, n - 4);
    assert Joined(parts, n - 6) == parts[n - 6] + Joined(parts, n - 5);
    if r.Acquire? {
      assert (PREFIX + ACQUIRE) + Joined(parts, 0) == PREFIX + (ACQUIRE + Joined(parts, 0));
    } else {
      assert Joined(parts, 0) == parts[0] + Joined(parts, 1);
      var f := r.fence;
      assert FenceBytes(f) + parts[6] == parts[2] + (parts[3] + (parts[4] + (parts[5] + parts[6])));
      assert (PREFIX + Domain(r)) + Joined(parts, 0) == PREFIX + (Domain(r) + Joined(parts, 0));
    }
  }

  /** `lease_fingerprint`: appends prefix, domain and parts to one byte vector. */
  method LeaseFingerprint(r: LeaseRequest, filesystem: nat) returns (bytes: Bytes)
    ensures bytes == Fingerprint(r, filesystem)
  {
    hide Be, Fingerprint;
    bytes := PREFIX + Domain(r);
    var parts := Parts(r, filesystem);
    for i := 0 to |parts|
      invariant bytes + Joined(parts, i) == (PREFIX + Domain(r)) + Joined(parts, 0)
    {
      assert bytes + (parts[i] + Joined(parts, i + 1)) == (bytes + parts[i]) + Joined(parts, i + 1);
      bytes := bytes + parts[i];
    }
    assert bytes + [] == bytes;
    PartsJoin(r, filesystem);
  }

  predicate IdOk(n: nat)
  {
    n < Pow256(ID_WIDTH)
  }

  predicate FenceOk(f: Fence)
  {
    IdOk(f.scope) && IdOk(f.holder) && IdOk(f.lease) && f.token < Pow256(U64_WIDTH)
  }

  /** Operands fit the widths of their types. */
  predicate RequestOk(r: LeaseRequest)
  {
    IdOk(r.id) &&
    match r
    case Acquire(_, scope, holder, lease, duration) =>
      IdOk(scope) && IdOk(holder) && IdOk(lease) && duration < Pow256(U64_WIDTH)
    case Renew(_, fence, duration) => FenceOk(fence) && duration < Pow256(U64_WIDTH)
    case Release(_, fence) => FenceOk(fence)
  }

  lemma SplitEqual(a: Bytes, b: Bytes, c: Bytes, d: Bytes)
    requires a + b == c + d && |a| == |c|
    ensures a == c && b == d
  {
    assert a == (a + b)[..|a|] && c == (c + d)[..|c|];
    assert b == (a + b)[|a|..] && d == (c + d)[|c|..];
  }

  /** One fixed-width field determines its value and leaves the rest. */
  lemma PeelField(x: nat, y: nat, width: nat, a: Bytes, b: Bytes)
    requires x < Pow256(width) && y < Pow256(width) && Be(x, width) + a == Be(y, width) + b
    ensures x == y && a == b
  {
    SplitEqual(Be(x, width), a, Be(y, width), b);
    DecodeEncoded(x, width);
    DecodeEncoded(y, width);
  }

  lemma SameFence(f: Fence, g: Fence, a: Bytes, b: Bytes)
    requires FenceOk(f) && FenceOk(g) && FenceBytes(f) + a == FenceBytes(g) + b
    ensures f == g && a == b
  {
    SplitEqual(FenceBytes(f), a, FenceBytes(g), b);
    PeelField(f.scope, g.scope, ID_WIDTH, Be(f.holder, ID_WIDTH) + (Be(f.lease, ID_WIDTH) + Be(f.token, U64_WIDTH)),
              Be(g.holder, ID_WIDTH) + (Be(g.lease, ID_WIDTH) + Be(g.token, U64_WIDTH)));
    PeelField(f.holder, g.holder, ID_WIDTH, Be(f.lease, ID_WIDTH) + Be(f.token, U64_WIDTH),
              Be(g.lease, ID_WIDTH) + Be(g.token, U64_WIDTH));
    PeelField(f.lease, g.lease, ID_WIDTH, Be(f.token, U64_WIDTH), Be(g.token, U64_WIDTH));
    DecodeEncoded(f.token, U64_WIDTH);
    DecodeEncoded(g.token, U64_WIDTH);
  }

  function FingerprintLength(r: LeaseRequest): nat
  {
    match r case Acquire(_, _, _, _, _) => 118 case Renew(_, _, _) => 124 case Release(_, _) => 126
  }

  lemma LengthTellsKind(r: LeaseRequest, filesystem: nat)
    ensures |Fingerprint(r, filesystem)| == FingerprintLength(r)
  {
  }

  /** Equal pre-hash bytes mean the same kind and the same operands. */
  lemma FingerprintInjective(r: LeaseRequest, s: LeaseRequest, fr: nat, fs: nat)
    requires RequestOk(r) && RequestOk(s) && IdOk(fr) && IdOk(fs)
    requires Fingerprint(r, fr) == Fingerprint(s, fs)
    ensures r == s && fr == fs
  {
    LengthTellsKind(r, fr);
    LengthTellsKind(s, fs);
    match r
    case Acquire(_, _, _, _, _) => SameAcquire(r, s, fr, fs);
    case Renew(_, _, _) => SameRenew(r, s, fr, fs);
    case Release(_, _) => SameRelease(r, s, fr, fs);
  }

  lemma SameAcquire(r: LeaseRequest, s: LeaseRequest, fr: nat, fs: nat)
    requires r.Acquire? && s.Acquire? && RequestOk(r) && RequestOk(s) && IdOk(fr) && IdOk(fs)
    requires Fingerprint(r, fr) == Fingerprint(s, fs)
    ensures r == s && fr == fs
  {
    var r5, s5 := Be(r.duration, U64_WIDTH), Be(s.duration, U64_WIDTH);
    var r4, s4 := Be(r.lease, ID_WIDTH) + r5, Be(s.lease, ID_WIDTH) + s5;
    var r3, s3 := Be(r.holder, ID_WIDTH) + r4, Be(s.holder, ID_WIDTH) + s4;
    var r2, s2 := Be(r.scope, ID_WIDTH) + r3, Be(s.scope, ID_WIDTH) + s3;
    var r1, s1 := Be(r.id, ID_WIDTH) + r2, Be(s.id, ID_WIDTH) + s2;
    var r0, s0 := Be(fr, ID_WIDTH) + r1, Be(fs, ID_WIDTH) + s1;
    SplitEqual(PREFIX, ACQUIRE + r0, PREFIX, ACQUIRE + s0);
    SplitEqual(ACQUIRE, r0, ACQUIRE, s0);
    PeelField(fr, fs, ID_WIDTH, r1, s1);
    PeelField(r.id, s.id, ID_WIDTH, r2, s2);
    PeelField(r.scope, s.scope, ID_WIDTH, r3, s3);
    PeelField(r.holder, s.holder, ID_WIDTH, r4, s4);
    PeelField(r.lease, s.lease, ID_WIDTH, r5, s5);
    DecodeEncoded(r.duration, U64_WIDTH);
    DecodeEncoded(s.duration, U64_WIDTH);
  }

  lemma SameRenew(r: LeaseRequest, s: LeaseRequest, fr: nat, fs: nat)
    requires r.Renew? && s.Renew? && RequestOk(r) && RequestOk(s) && IdOk(fr) && IdOk(fs)
    requires Fingerprint(r, fr) == Fingerprint(s, fs)
    ensures r == s && fr == fs
  {
    var r3, s3 := Be(r.duration, U64_WIDTH), Be(s.duration, U64_WIDTH);
    var r2, s2 := FenceBytes(r.fence) + r3, FenceBytes(s.fence) + s3;
    var r1, s1 := Be(r.id, ID_WIDTH) + r2, Be(s.id, ID_WIDTH) + s2;
    var r0, s0 := Be(fr, ID_WIDTH) + r1, Be(fs, ID_WIDTH) + s1;
    SplitEqual(PREFIX, RENEW + r0, PREFIX, RENEW + s0);
    SplitEqual(RENEW, r0, RENEW, s0);
    PeelField(fr, fs, ID_WIDTH, r1, s1);
    PeelField(r.id, s.id, ID_WIDTH, r2, s2);
    SameFence(r.fence, s.fence, r3, s3);
    DecodeEncoded(r.duration, U64_WIDTH);
    DecodeEncoded(s.duration, U64_WIDTH);
  }

  lemma SameRelease(r: LeaseRequest, s: LeaseRequest, fr: nat, fs: nat)
    requires r.Release? && s.Release? && RequestOk(r) && RequestOk(s) && IdOk(fr) && IdOk(fs)
    requires Fingerprint(r, fr) == Fingerprint(s, fs)
    ensures r == s && fr == fs
  {
    var rest := Be(0, U64_WIDTH);
    var r1, s1 := Be(r.id, ID_WIDTH) + (FenceBytes(r.fence) + rest), Be(s.id, ID_WIDTH) + (FenceBytes(s.fence) + rest);
    var r0, s0 := Be(fr, ID_WIDTH) + r1, Be(fs, ID_WIDTH) + s1;
    SplitEqual(PREFIX, RELEASE + r0, PREFIX, RELEASE + s0);
    SplitEqual(RELEASE, r0, RELEASE, s0);
    PeelField(fr, fs, ID_WIDTH, r1, s1);
    PeelField(r.id, s.id, ID_WIDTH, FenceBytes(r.fence) + rest, FenceBytes(s.fence) + rest);
    SameFence(r.fence, s.fence, rest, rest);
  }
}
