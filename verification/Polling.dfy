/** Bounded polling of the change log (crates/w9pt-fs-state-postgres/src/change.rs,
    crates/w9pt-fs-state/src/change.rs). */
module Polling {
  import opened Values
  import opened Records
  import opened Authority
  import opened Invariants
  import opened Coherence

  datatype LogHeader = LogHeader(revision: Revision, origin: Origin, keyCount: nat)

  datatype KeyRow = KeyRow(revision: Revision, ordinal: nat, key: Key)

  datatype Event = Event(revision: Revision, origin: Origin, keys: seq<Key>)

  datatype HeaderPlan =
    | BoundTooSmall(revision: Revision, required: nat) | Selected(headers: seq<LogHeader>) | Corrupt

  datatype LimitValues = LimitValues(history: nat, keys: nat)

  const SCHEMA_HISTORY: nat := 1_000_000

  /** Configured bounds of a poll; `PostgresStateConfig::new` is the only way to a
      configuration and refuses limits above those of the schema. */
  type ChangeLimits = l: LimitValues | 0 < l.history <= SCHEMA_HISTORY && 0 < l.keys <= SCHEMA_KEYS
    witness LimitValues(1, 1)

  datatype PollOutcome =
    | MalformedPoll
    | RevisionUnavailable(requested: Revision, current: Revision)
    | RevisionCompacted(oldest: Revision, current: Revision)
    | PollBoundTooSmall(revision: Revision, required: nat)
    | Changes(events: seq<Event>, next: Revision, current: Revision)
    | Corrupted

  // ------------------------------------------------------------ the queries

  /** Log rows in (after, current], in revision order, at most `limit` of them. */
  function HeaderRows(s: State, after: Revision, current: Revision, limit: nat): seq<LogHeader>
    decreases current - after
  {
    if after >= current || limit == 0 then []
    else if after + 1 in s.commits
      then [LogHeader(after + 1, s.commits[after + 1].origin, s.commits[after + 1].keyCount)]
           + HeaderRows(s, after + 1, current, limit - 1)
    else HeaderRows(s, after + 1, current, limit)
  }

  function RowsOf(revision: Revision, keys: seq<Key>): (r: seq<KeyRow>)
    ensures |r| == |keys|
    ensures forall i | 0 <= i < |r| :: r[i] == KeyRow(revision, i, keys[i])
  {
    seq(|keys|, i requires 0 <= i < |keys| => KeyRow(revision, i, keys[i]))
  }

  /** Key rows in (after, upto], in revision and ordinal order. */
  function KeyRows(s: State, after: Revision, upto: Revision): seq<KeyRow>
    decreases upto - after
  {
    if after >= upto then []
    else (if after + 1 in s.keys then RowsOf(after + 1, s.keys[after + 1]) else []) + KeyRows(s, after + 1, upto)
  }

  predicate Logged(s: State, r: Revision)
  {
    r in s.commits && r in s.keys
  }

  function EventAt(s: State, r: Revision): Event
    requires Logged(s, r)
  {
    Event(r, s.commits[r].origin, s.keys[r])
  }

  /** The whole events in (after, upto]. */
  function Events(s: State, after: Revision, upto: Revision): seq<Event>
    decreases upto - after
  {
    if after >= upto || !Logged(s, after + 1) then []
    else [EventAt(s, after + 1)] + Events(s, after + 1, upto)
  }

  function KeyTotal(headers: seq<LogHeader>): nat
  {
    if headers == [] then 0 else KeyTotal(headers[..|headers| - 1]) + headers[|headers| - 1].keyCount
  }

  // -------------------------------------------------------------- planning

  /** Headers continue the cursor without a gap. */
  ghost predicate Contiguous(headers: seq<LogHeader>, after: Revision)
  {
    forall i | 0 <= i < |headers| :: headers[i].revision == after + 1 + i
  }

  /** The longest prefix within the key bound. */
  ghost predicate Greedy(headers: seq<LogHeader>, n: nat, maxKeys: nat)
  {
    && n <= |headers| && KeyTotal(headers[..n]) <= maxKeys
    && (n < |headers| ==> KeyTotal(headers[..n + 1]) > maxKeys)
  }

  /** The event at `i` follows a prefix within the key bound and takes the total past
      32 bits. */
  ghost predicate OverflowsAt(headers: seq<LogHeader>, maxKeys: nat, i: nat)
  {
    i < |headers| && KeyTotal(headers[..i]) <= maxKeys && KeyTotal(headers[..i + 1]) > U32_MAX
  }

  /** The header query answered as it should: no gap, and it stops only at the current
      revision or at the event bound. */
  ghost predicate Complete(headers: seq<LogHeader>, after: Revision, current: Revision, maxEvents: nat)
  {
    && Contiguous(headers, after) && |headers| <= maxEvents
    && after + |headers| <= current && (after + |headers| == current || |headers| == maxEvents)
  }

  lemma KeyTotalNone(headers: seq<LogHeader>)
    ensures KeyTotal(headers[..0]) == 0
  {
  }

  lemma KeyTotalNext(headers: seq<LogHeader>, i: nat)
    requires i < |headers|
    ensures KeyTotal(headers[..i + 1]) == KeyTotal(headers[..i]) + headers[i].keyCount
  {
    assert headers[..i + 1][..i] == headers[..i];
  }

  lemma {:induction false} KeyTotalGrows(headers: seq<LogHeader>, a: nat, b: nat)
    requires a <= b <= |headers|
    ensures KeyTotal(headers[..a]) <= KeyTotal(headers[..b])
    decreases b
  {
    if a < b {
      assert headers[..b][..b - 1] == headers[..b - 1];
      KeyTotalGrows(headers, a, b - 1);
    }
  }

  /** `plan_headers`: selects the greedy prefix; on a complete header list it reports
      corruption exactly when the first event past the key bound overflows. */
  method PlanHeaders(headers: seq<LogHeader>, after: Revision, current: Revision, maxEvents: nat, maxKeys: nat)
    returns (plan: HeaderPlan)
    ensures plan.Selected? ==>
      && plan.headers <= headers && Contiguous(plan.headers, after) && Greedy(headers, |plan.headers|, maxKeys)
      && |plan.headers| <= maxEvents && after + |plan.headers| <= Larger(after, current)
    ensures plan.BoundTooSmall? ==>
      && headers != [] && headers[0].revision == plan.revision == after + 1
      && headers[0].keyCount == plan.required > maxKeys
    ensures Complete(headers, after, current, maxEvents) && current <= U64_MAX ==>
      (plan.Corrupt? <==> exists i :: OverflowsAt(headers, maxKeys, i))
    ensures plan.Selected? && headers != [] ==> |plan.headers| > 0
  {
    hide KeyTotal;
    if |headers| > maxEvents {
      return Corrupt;
    }
    KeyTotalNone(headers);
    var total, previous := 0, after;
    for i := 0 to |headers|
      invariant Contiguous(headers[..i], after) && previous == after + i
      invariant total == KeyTotal(headers[..i]) <= maxKeys
      invariant i > 0 ==> previous <= current
      invariant forall j: nat | j < i :: !OverflowsAt(headers, maxKeys, j)
    {
      var header := headers[i];
      KeyTotalNext(headers, i);
      if CheckedNext(previous).None? || header.revision != previous + 1 || header.revision > current {
        return Corrupt;
      }
      if total + header.keyCount > U32_MAX {
        assert OverflowsAt(headers, maxKeys, i);
        return Corrupt;
      }
      if total + header.keyCount > maxKeys {
        forall j: nat ensures !OverflowsAt(headers, maxKeys, j) {
          if i < j < |headers| {
            KeyTotalGrows(headers, i + 1, j);
          }
        }
        return if i == 0 then BoundTooSmall(header.revision, header.keyCount) else Selected(headers[..i]);
      }
      total := total + header.keyCount;
      previous := header.revision;
    }
    assert headers[..|headers|] == headers;
    if previous < current && |headers| < maxEvents {
      return Corrupt;
    }
    return Selected(headers);
  }

  // -------------------------------------------------------------- assembly

  ghost predicate WholeKeys(keys: seq<Key>, limit: nat)
  {
    0 < |keys| <= limit && forall x, y | 0 <= x < y < |keys| :: keys[x] != keys[y]
  }

  /** `ChangeEvent::new`: nonempty, within the limit and free of repeated keys. */
  method ValidEvent(keys: seq<Key>, limit: nat) returns (ok: bool)
    ensures ok <==> WholeKeys(keys, limit)
  {
    if keys == [] || |keys| > limit {
      return false;
    }
    var unique: set<Key> := {};
    for i := 0 to |keys|
      invariant forall k :: k in unique <==> k in keys[..i]
      invariant forall x, y | 0 <= x < y < i :: keys[x] != keys[y]
    {
      if keys[i] in unique {
        return false;
      }
      unique := unique + {keys[i]};
    }
    return true;
  }

  /** `keys` are the key rows of one event, or its rows do not follow. */
  ghost predicate Took(header: LogHeader, rows: seq<KeyRow>, start: nat, keys: Option<seq<Key>>)
    requires start <= |rows|
  {
    match keys
    case Some(taken) =>
      && |taken| == header.keyCount && start + header.keyCount <= |rows|
      && rows[start..start + header.keyCount] == RowsOf(header.revision, taken)
    case None =>
      forall whole: seq<Key> | |whole| == header.keyCount :: !(RowsOf(header.revision, whole) <= rows[start..])
  }

  /** One event's share of the key rows. */
  method TakeKeys(header: LogHeader, rows: seq<KeyRow>, start: nat) returns (keys: Option<seq<Key>>)
    requires start <= |rows|
    ensures Took(header, rows, start, keys)
  {
    var taken: seq<Key> := [];
    for ordinal := 0 to header.keyCount
      invariant |taken| == ordinal && start + ordinal <= |rows|
      invariant rows[start..start + ordinal] == RowsOf(header.revision, taken)
    {
      var at := start + ordinal;
      if at >= |rows| || rows[at].revision != header.revision || rows[at].ordinal != ordinal {
        forall whole: seq<Key> | |whole| == header.keyCount
          ensures !(RowsOf(header.revision, whole) <= rows[start..])
        {
          assert at < |rows| ==> rows[start..][ordinal] == rows[at];
          assert RowsOf(header.revision, whole)[ordinal] == KeyRow(header.revision, ordinal, whole[ordinal]);
        }
        return None;
      }
      taken := taken + [rows[at].key];
      assert rows[start..at + 1] == rows[start..at] + [rows[at]];
    }
    return Some(taken);
  }

  /** The key rows of a list of events. */
  function RowsAll(events: seq<Event>): seq<KeyRow>
  {
    if events == [] then []
    else RowsOf(events[0].revision, events[0].keys) + RowsAll(events[1..])
  }

  predicate Matches(h: LogHeader, e: Event)
  {
    e.revision == h.revision && e.origin == h.origin && |e.keys| == h.keyCount
  }

  /** `events` are the whole events of `headers` and use up exactly `rows`. */
  ghost predicate Assembles(headers: seq<LogHeader>, rows: seq<KeyRow>, events: seq<Event>, limit: nat)
  {
    && |events| == |headers|
    && (forall i | 0 <= i < |events| :: Matches(headers[i], events[i]) && WholeKeys(events[i].keys, limit))
    && rows == RowsAll(events)
  }

  lemma {:induction false} RowsAllConcat(a: seq<Event>, b: seq<Event>)
    ensures RowsAll(a + b) == RowsAll(a) + RowsAll(b)
    decreases |a|
  {
    if a == [] {
      assert a + b == b;
    } else {
      RowsAllConcat(a[1..], b);
      assert (a + b)[1..] == a[1..] + b;
    }
  }

  /** The rows left after a prefix of the events start with the next event's rows. */
  lemma NextRows(headers: seq<LogHeader>, rows: seq<KeyRow>, events: seq<Event>, limit: nat, i: nat, start: nat)
    requires Assembles(headers, rows, events, limit) && i < |events|
    requires start <= |rows| && rows[..start] == RowsAll(events[..i])
    ensures RowsOf(events[i].revision, events[i].keys) <= rows[start..]
    ensures rows[start..] == RowsAll(events[i..])
  {
    assert events == events[..i] + events[i..];
    RowsAllConcat(events[..i], events[i..]);
    assert rows == rows[..start] + rows[start..];
    assert rows[start..] == RowsAll(events[i..]);
    assert events[i..][0] == events[i];
  }

  lemma SameKeys(revision: Revision, a: seq<Key>, b: seq<Key>, rows: seq<KeyRow>)
    requires RowsOf(revision, a) <= rows && RowsOf(revision, b) <= rows && |a| == |b|
    ensures a == b
  {
    forall i | 0 <= i < |a| ensures a[i] == b[i] {
      assert RowsOf(revision, a)[i] == rows[i] == RowsOf(revision, b)[i];
    }
  }

  /** `done` are the events of the first headers, and every assembly starts with them. */
  ghost predicate Partial(headers: seq<LogHeader>, rows: seq<KeyRow>, done: seq<Event>, start: nat, limit: nat)
  {
    && |done| <= |headers| && start <= |rows| && rows[..start] == RowsAll(done)
    && (forall x | 0 <= x < |done| :: Matches(headers[x], done[x]) && WholeKeys(done[x].keys, limit))
    && (forall whole: seq<Event> | Assembles(headers, rows, whole, limit) :: done <= whole)
  }

  /** Any assembly goes on with the keys that are taken next. */
  lemma WholeTakes(headers: seq<LogHeader>, rows: seq<KeyRow>, done: seq<Event>, start: nat, limit: nat,
                   keys: Option<seq<Key>>, whole: seq<Event>)
    requires Partial(headers, rows, done, start, limit) && |done| < |headers|
    requires Assembles(headers, rows, whole, limit) && Took(headers[|done|], rows, start, keys)
    ensures keys == Some(whole[|done|].keys) && WholeKeys(whole[|done|].keys, limit)
  {
    var i := |done|;
    assert whole[..i] == done;
    NextRows(headers, rows, whole, limit, i, start);
    assert Matches(headers[i], whole[i]);
    SameKeysTaken(headers[i], rows, start, keys, whole[i].keys);
  }

  lemma PartialNext(headers: seq<LogHeader>, rows: seq<KeyRow>, done: seq<Event>, start: nat, limit: nat,
                    keys: seq<Key>)
    requires Partial(headers, rows, done, start, limit) && |done| < |headers|
    requires Took(headers[|done|], rows, start, Some(keys)) && WholeKeys(keys, limit)
    ensures var h := headers[|done|];
            Partial(headers, rows, done + [Event(h.revision, h.origin, keys)], start + h.keyCount, limit)
  {
    hide WholeKeys, Assembles;
    var h := headers[|done|];
    var event := Event(h.revision, h.origin, keys);
    RowsAllConcat(done, [event]);
    assert RowsAll([event]) == RowsOf(event.revision, event.keys);
    assert rows[..start + h.keyCount] == rows[..start] + rows[start..start + h.keyCount];
    forall whole: seq<Event> | Assembles(headers, rows, whole, limit) ensures done + [event] <= whole {
      WholeTakes(headers, rows, done, start, limit, Some(keys), whole);
      MatchedAt(headers, rows, whole, limit, |done|);
    }
  }

  lemma MatchedAt(headers: seq<LogHeader>, rows: seq<KeyRow>, whole: seq<Event>, limit: nat, i: nat)
    requires Assembles(headers, rows, whole, limit) && i < |headers|
    ensures |whole| == |headers| && Matches(headers[i], whole[i])
  {
  }

  lemma PartialEnds(headers: seq<LogHeader>, rows: seq<KeyRow>, done: seq<Event>, start: nat, limit: nat)
    requires Partial(headers, rows, done, start, limit) && |done| == |headers|
    ensures start == |rows| ==> Assembles(headers, rows, done, limit)
    ensures forall whole: seq<Event> | Assembles(headers, rows, whole, limit) :: whole == done && start == |rows|
  {
    assert rows[..|rows|] == rows;
    forall whole: seq<Event> | Assembles(headers, rows, whole, limit) ensures whole == done && start == |rows| {
      assert whole == done;
      assert rows == RowsAll(done) == rows[..start];
    }
  }

  /** `assemble_events`: succeeds exactly when some whole events use up the rows, and
      then returns them. */
  method AssembleEvents(headers: seq<LogHeader>, rows: seq<KeyRow>, limit: nat) returns (events: Option<seq<Event>>)
    ensures events.Some? ==> Assembles(headers, rows, events.value, limit)
    ensures forall whole: seq<Event> | Assembles(headers, rows, whole, limit) :: events == Some(whole)
  {
    var done: seq<Event> := [];
    var start: nat := 0;
    assert Partial(headers, rows, done, start, limit);
    hide Partial, Assembles, WholeKeys;
    for i := 0 to |headers|
      invariant |done| == i && start <= |rows| && Partial(headers, rows, done, start, limit)
    {
      var keys := TakeKeys(headers[i], rows, start);
      forall whole: seq<Event> | Assembles(headers, rows, whole, limit)
        ensures keys.Some? && WholeKeys(keys.value, limit)
      {
        WholeTakes(headers, rows, done, start, limit, keys, whole);
      }
      if keys.None? {
        return None;
      }
      var valid := ValidEvent(keys.value, limit);
      if !valid {
        return None;
      }
      PartialNext(headers, rows, done, start, limit, keys.value);
      done := done + [Event(headers[i].revision, headers[i].origin, keys.value)];
      start := start + headers[i].keyCount;
    }
    PartialEnds(headers, rows, done, start, limit);
    return if start < |rows| then None else Some(done);
  }

  lemma SameKeysTaken(h: LogHeader, rows: seq<KeyRow>, start: nat, keys: Option<seq<Key>>, whole: seq<Key>)
    requires start <= |rows| && |whole| == h.keyCount && RowsOf(h.revision, whole) <= rows[start..]
    requires Took(h, rows, start, keys)
    ensures keys == Some(whole)
  {
    assert keys.Some?;
    assert rows[start..][..h.keyCount] == rows[start..start + h.keyCount];
    SameKeys(h.revision, keys.value, whole, rows[start..]);
  }

  // ------------------------------------------------------- portable validator

  /** `ChangePoll::new`. */
  predicate PollAllowed(maxEvents: nat, maxKeys: nat, limits: ChangeLimits)
  {
    0 < maxEvents <= limits.history && 0 < maxKeys <= limits.keys
  }

  ghost predicate BatchOk(events: seq<Event>, after: Revision, next: Revision, current: Revision,
                          maxEvents: nat, maxKeys: nat, limits: ChangeLimits)
  {
    && PollAllowed(maxEvents, maxKeys, limits)
    && |events| <= maxEvents
    && EventKeyTotal(events) <= maxKeys
    && (forall i | 0 <= i < |events| :: after < events[i].revision <= current)
    && (forall i, j | 0 <= i < j < |events| :: events[i].revision < events[j].revision)
    && (forall i | 0 <= i < |events| :: events[i].revision <= next)
    && after <= next <= current
  }

  function EventKeyTotal(events: seq<Event>): nat
  {
    if events == [] then 0 else EventKeyTotal(events[..|events| - 1]) + |events[|events| - 1].keys|
  }

  lemma {:induction false} EventTotalGrows(events: seq<Event>, n: nat)
    requires n <= |events|
    ensures EventKeyTotal(events[..n]) <= EventKeyTotal(events)
    decreases |events| - n
  {
    if n < |events| {
      assert events[..n + 1][..n] == events[..n];
      EventTotalGrows(events, n + 1);
    } else {
      assert events[..n] == events;
    }
  }

  /** `ChangeBatch::new`. */
  method ValidBatch(events: seq<Event>, after: Revision, next: Revision, current: Revision,
                    maxEvents: nat, maxKeys: nat, limits: ChangeLimits) returns (ok: bool)
    ensures ok <==> BatchOk(events, after, next, current, maxEvents, maxKeys, limits)
  {
    if !PollAllowed(maxEvents, maxKeys, limits) || |events| > maxEvents {
      return false;
    }
    var total, previous := 0, after;
    for i := 0 to |events|
      invariant total == EventKeyTotal(events[..i]) <= maxKeys
      invariant after <= previous && (i == 0 ==> previous == after)
      invariant i > 0 ==> previous == events[i - 1].revision <= current
      invariant forall x | 0 <= x < i :: after < events[x].revision <= previous
      invariant forall x, y | 0 <= x < y < i :: events[x].revision < events[y].revision
    {
      assert events[..i + 1][..i] == events[..i];
      total := total + |events[i].keys|;
      if total > maxKeys {
        assert total == EventKeyTotal(events[..i + 1]);
        EventTotalGrows(events, i + 1);
        return false;
      }
      if events[i].revision <= previous || events[i].revision > current {
        return false;
      }
      previous := events[i].revision;
    }
    assert events[..|events|] == events;
    return previous <= next <= current;
  }

  // ---------------------------------------------------------------- reachable logs

  lemma {:induction false} HeaderRowsOf(s: State, after: Revision, n: nat)
    requires LogExact(s) && s.oldest <= after <= s.current
    ensures var rows := HeaderRows(s, after, s.current, n);
            && |rows| == (if n < s.current - after then n else s.current - after)
            && Contiguous(rows, after)
            && forall h | h in rows :: RowFor(s, h)
    decreases s.current - after
  {
    if after < s.current && n > 0 {
      HeaderRowsOf(s, after + 1, n - 1);
    }
  }

  lemma CanonicalIsWhole(keys: seq<Key>, x: nat, y: nat)
    requires Canonical(keys) && x < y < |keys|
    ensures keys[x] != keys[y]
  {
    LexLessIrreflexive(Rank(keys[x]));
  }

  lemma LoggedIsWhole(s: State, r: Revision)
    requires LogExact(s) && s.oldest < r <= s.current
    ensures Logged(s, r) && WholeKeys(s.keys[r], |s.keys[r]|) && s.commits[r].keyCount == |s.keys[r]|
  {
    var keys := s.keys[r];
    forall x, y | 0 <= x < y < |keys| ensures keys[x] != keys[y] {
      CanonicalIsWhole(keys, x, y);
    }
  }

  lemma {:induction false} EventsAre(s: State, after: Revision, upto: Revision)
    requires LogExact(s) && s.oldest <= after <= upto <= s.current
    ensures |Events(s, after, upto)| == upto - after
    ensures RowsAll(Events(s, after, upto)) == KeyRows(s, after, upto)
    decreases upto - after
  {
    hide LogExact;
    if after < upto {
      LoggedIsWhole(s, after + 1);
      EventsAre(s, after + 1, upto);
      assert Events(s, after, upto)[1..] == Events(s, after + 1, upto);
    }
  }

  lemma {:induction false} EventIs(s: State, after: Revision, upto: Revision, i: nat)
    requires LogExact(s) && s.oldest <= after <= upto <= s.current && i < upto - after
    ensures |Events(s, after, upto)| == upto - after
    ensures Logged(s, after + 1 + i) && Events(s, after, upto)[i] == EventAt(s, after + 1 + i)
    decreases i
  {
    hide LogExact;
    LoggedIsWhole(s, after + 1);
    EventsAre(s, after, upto);
    if i > 0 {
      EventIs(s, after + 1, upto, i - 1);
      assert Events(s, after, upto)[i] == Events(s, after + 1, upto)[i - 1];
    }
  }

  lemma {:induction false} TotalsAgree(headers: seq<LogHeader>, events: seq<Event>)
    requires |headers| == |events| && forall i | 0 <= i < |headers| :: Matches(headers[i], events[i])
    ensures KeyTotal(headers) == EventKeyTotal(events)
    decreases |headers|
  {
    if headers != [] {
      TotalsAgree(headers[..|headers| - 1], events[..|events| - 1]);
    }
  }

  /** Every event of the log fits the key bound. */
  ghost predicate KeysFit(s: State, bound: nat)
  {
    forall r | r in s.keys :: |s.keys[r]| <= bound
  }

  /** How far one poll reaches. */
  ghost predicate PollReaches(s: State, after: Revision, next: Revision, maxEvents: nat, maxKeys: nat)
  {
    && after <= next <= s.current && next - after <= maxEvents
    && EventKeyTotal(Events(s, after, next)) <= maxKeys
    && (next < s.current && next - after < maxEvents ==> EventKeyTotal(Events(s, after, next + 1)) > maxKeys)
  }

  /** The header row of a logged revision. */
  predicate RowFor(s: State, h: LogHeader)
  {
    h.revision in s.commits && h.origin == s.commits[h.revision].origin
    && h.keyCount == s.commits[h.revision].keyCount
  }

  /** The first `n` headers and the events they stand for. */
  lemma PrefixEvents(s: State, after: Revision, headers: seq<LogHeader>, n: nat)
    requires LogExact(s) && s.oldest <= after && after + |headers| <= s.current && n <= |headers|
    requires Contiguous(headers, after) && forall h | h in headers :: RowFor(s, h)
    ensures var events := Events(s, after, after + n);
            && |events| == n
            && (forall i | 0 <= i < n :: Matches(headers[i], events[i]) && WholeKeys(events[i].keys, |events[i].keys|))
            && KeyTotal(headers[..n]) == EventKeyTotal(events)
            && RowsAll(events) == KeyRows(s, after, after + n)
  {
    hide LogExact, WholeKeys, Events, KeyRows, RowsAll, EventKeyTotal, KeyTotal;
    var events := Events(s, after, after + n);
    EventsAre(s, after, after + n);
    forall i | 0 <= i < n ensures Matches(headers[i], events[i]) && WholeKeys(events[i].keys, |events[i].keys|) {
      EventIs(s, after, after + n, i);
      LoggedIsWhole(s, after + 1 + i);
      assert headers[i] in headers;
    }
    TotalsAgree(headers[..n], events);
  }

  /** No event has more keys than a batch it is part of. */
  lemma {:induction false} EventWithinTotal(events: seq<Event>, i: nat)
    requires i < |events|
    ensures |events[i].keys| <= EventKeyTotal(events)
    decreases |events|
  {
    if i < |events| - 1 {
      EventWithinTotal(events[..|events| - 1], i);
    }
  }

  /** Header rows of the log within the schema's key count never overflow a batch. */
  lemma SmallNeverOverflows(s: State, headers: seq<LogHeader>, maxKeys: nat)
    requires LogExact(s) && maxKeys <= SCHEMA_KEYS && forall h | h in headers :: RowFor(s, h)
    ensures forall i :: !OverflowsAt(headers, maxKeys, i)
  {
    hide KeyTotal;
    forall i: nat | i < |headers| ensures !OverflowsAt(headers, maxKeys, i) {
      assert headers[i] in headers;
      KeyTotalNext(headers, i);
    }
  }

  /** How a poll from a retained cursor is answered: with the size of a first event that
      does not fit, or with the whole events up to as far as the bounds reach. */
  ghost predicate Answers(s: State, after: Revision, maxEvents: nat, maxKeys: nat, limits: ChangeLimits,
                          p: PollOutcome)
  {
    if after < s.current && after + 1 in s.keys && |s.keys[after + 1]| > maxKeys
      then p == PollBoundTooSmall(after + 1, |s.keys[after + 1]|)
    else
      && p.Changes? && p.events == Events(s, after, p.next) && p.current == s.current
      && PollReaches(s, after, p.next, maxEvents, maxKeys)
      && BatchOk(p.events, after, p.next, p.current, maxEvents, maxKeys, limits)
      && (after < s.current ==> after < p.next)
  }

  /** What every reachable state offers to a poll. */
  ghost predicate Pollable(s: State)
  {
    LogExact(s) && s.current <= U64_MAX
  }

  lemma StepPollable(s: State, step: Step)
    requires Enabled(s, step) && s.current <= U64_MAX
    ensures Next(s, step).current <= U64_MAX
  {
    hide Named;
    StepRevision(s, step);
    SuccessIsNamed(s, step);
  }

  lemma {:induction false} AlwaysPollable(run: seq<Step>, n: nat)
    requires Runs(FRESH, run) && n <= |run|
    ensures Pollable(At(FRESH, run, n))
    decreases n
  {
    hide Inv, Enabled, Next, LogExact;
    InvAlways(run, n);
    InvLog(At(FRESH, run, n));
    if n > 0 {
      AlwaysPollable(run, n - 1);
      assert Takes(FRESH, run, n - 1);
      StepPollable(At(FRESH, run, n - 1), run[n - 1]);
    }
  }

  /** `poll_changes`: in every reachable state no corruption is reported, and a poll that
      answers returns the whole events up to as far as its bounds reach. */
  method Poll(s: State, after: Revision, maxEvents: nat, maxKeys: nat, limits: ChangeLimits) returns (p: PollOutcome)
    requires Pollable(s)
    ensures p != Corrupted
    ensures p == MalformedPoll <==>
      maxEvents == 0 || maxEvents > limits.history || maxKeys == 0 || maxKeys > limits.keys
    ensures p != MalformedPoll ==>
      if after > s.current then p == RevisionUnavailable(after, s.current)
      else if after < s.oldest then p == RevisionCompacted(s.oldest, s.current)
      else Answers(s, after, maxEvents, maxKeys, limits, p)
  {
    hide LogExact, RowFor, Contiguous, OverflowsAt, Greedy, BatchOk;
    if !PollAllowed(maxEvents, maxKeys, limits) {
      return MalformedPoll;
    }
    if after > s.current {
      return RevisionUnavailable(after, s.current);
    }
    if after < s.oldest {
      return RevisionCompacted(s.oldest, s.current);
    }
    var headers := HeaderRows(s, after, s.current, maxEvents);
    HeaderRowsOf(s, after, maxEvents);
    SmallNeverOverflows(s, headers, maxKeys);
    var plan := PlanHeaders(headers, after, s.current, maxEvents, maxKeys);
    if headers != [] {
      FirstHeader(s, after, headers);
    }
    match plan
    case Corrupt => return Corrupted;
    case BoundTooSmall(revision, required) => return PollBoundTooSmall(revision, required);
    case Selected(selected) =>
      FirstFits(headers, selected, maxKeys);
      p := AnswerPoll(s, after, headers, selected, maxEvents, maxKeys, limits);
  }

  lemma FirstHeader(s: State, after: Revision, headers: seq<LogHeader>)
    requires LogExact(s) && s.oldest <= after < s.current && headers != []
    requires Contiguous(headers, after) && forall h | h in headers :: RowFor(s, h)
    ensures after + 1 in s.keys && headers[0].revision == after + 1 && headers[0].keyCount == |s.keys[after + 1]|
  {
    assert headers[0] in headers;
  }

  lemma FirstFits(headers: seq<LogHeader>, selected: seq<LogHeader>, maxKeys: nat)
    requires selected <= headers && Greedy(headers, |selected|, maxKeys) && (headers != [] ==> selected != [])
    ensures headers != [] ==> headers[0].keyCount <= maxKeys
  {
    if headers != [] {
      KeyTotalGrows(headers, 1, |selected|);
      assert headers[..1][..0] == [];
    }
  }

  /** Loads, assembles and validates the selected events. */
  method AnswerPoll(s: State, after: Revision, headers: seq<LogHeader>, selected: seq<LogHeader>,
                    maxEvents: nat, maxKeys: nat, limits: ChangeLimits) returns (p: PollOutcome)
    requires LogExact(s) && s.oldest <= after && Complete(headers, after, s.current, maxEvents)
    requires forall h | h in headers :: RowFor(s, h)
    requires selected <= headers && Greedy(headers, |selected|, maxKeys) && |selected| <= maxEvents
    requires (headers != [] ==> selected != []) && PollAllowed(maxEvents, maxKeys, limits)
    ensures p.Changes? && p.events == Events(s, after, p.next) && p.current == s.current
    ensures p.next == after + |selected| && PollReaches(s, after, p.next, maxEvents, maxKeys)
    ensures BatchOk(p.events, after, p.next, p.current, maxEvents, maxKeys, limits)
  {
    hide LogExact, Contiguous, RowFor, Events, KeyRows, RowsAll, EventKeyTotal, KeyTotal, Assembles;
    var next := after + |selected|;
    SelectedEvents(s, after, headers, |selected|, limits.keys);
    assert selected == headers[..|selected|];
    var events := AssembleEvents(selected, KeyRows(s, after, next), limits.keys);
    assert events == Some(Events(s, after, next));
    if |selected| < |headers| {
      PrefixEvents(s, after, headers, |selected| + 1);
    }
    EventsAscend(s, after, next);
    var ok := ValidBatch(events.value, after, next, s.current, maxEvents, maxKeys, limits);
    return if ok then Changes(events.value, next, s.current) else Corrupted;
  }

  lemma SelectedEvents(s: State, after: Revision, headers: seq<LogHeader>, n: nat, limit: nat)
    requires LogExact(s) && s.oldest <= after && after + |headers| <= s.current && n <= |headers|
    requires Contiguous(headers, after) && forall h | h in headers :: RowFor(s, h)
    requires KeyTotal(headers[..n]) <= limit
    ensures var events := Events(s, after, after + n);
            && Assembles(headers[..n], KeyRows(s, after, after + n), events, limit)
            && KeyTotal(headers[..n]) == EventKeyTotal(events)
  {
    hide LogExact, Contiguous, RowFor, Events, KeyRows, RowsAll, EventKeyTotal, KeyTotal;
    PrefixEvents(s, after, headers, n);
    var events := Events(s, after, after + n);
    forall i | 0 <= i < n ensures WholeKeys(events[i].keys, limit) {
      EventWithinTotal(events, i);
    }
  }

  lemma EventsAscend(s: State, after: Revision, upto: Revision)
    requires LogExact(s) && s.oldest <= after <= upto <= s.current
    ensures var events := Events(s, after, upto);
            && |events| == upto - after
            && (forall i | 0 <= i < |events| :: after < events[i].revision <= upto)
            && (forall i, j | 0 <= i < j < |events| :: events[i].revision < events[j].revision)
  {
    hide LogExact;
    var events := Events(s, after, upto);
    EventsAre(s, after, upto);
    forall i | 0 <= i < |events| ensures events[i].revision == after + 1 + i {
      EventIs(s, after, upto, i);
    }
  }

  // ------------------------------------------------------------- completeness

  lemma {:induction false} EventsConcat(s: State, a: Revision, b: Revision, c: Revision)
    requires LogExact(s) && s.oldest <= a <= b <= c <= s.current
    ensures Events(s, a, b) + Events(s, b, c) == Events(s, a, c)
    decreases b - a
  {
    hide LogExact;
    if a < b {
      LoggedIsWhole(s, a + 1);
      EventsConcat(s, a + 1, b, c);
      assert ([EventAt(s, a + 1)] + Events(s, a + 1, b)) + Events(s, b, c)
          == [EventAt(s, a + 1)] + (Events(s, a + 1, b) + Events(s, b, c));
    }
  }

  /** Repeated polls from a retained cursor end and concatenate to exactly the events up
      to the current revision, or up to an event with more keys than the bound; a bound
      no smaller than any event reaches the current revision. */
  method PollAll(s: State, cursor: Revision, maxEvents: nat, maxKeys: nat, limits: ChangeLimits)
    returns (events: seq<Event>, reached: Revision)
    requires Pollable(s) && PollAllowed(maxEvents, maxKeys, limits)
    requires s.oldest <= cursor <= s.current
    ensures cursor <= reached <= s.current && events == Events(s, cursor, reached)
    ensures reached < s.current ==> reached + 1 in s.keys && |s.keys[reached + 1]| > maxKeys
    ensures KeysFit(s, maxKeys) ==> reached == s.current
  {
    hide LogExact, BatchOk, PollReaches;
    reached := cursor;
    events := [];
    while reached < s.current
      invariant cursor <= reached <= s.current
      invariant events == Events(s, cursor, reached)
      decreases s.current - reached
    {
      var p := Poll(s, reached, maxEvents, maxKeys, limits);
      if !p.Changes? {
        return;
      }
      ReachIsBounded(s, reached, p.next, maxEvents, maxKeys);
      EventsConcat(s, cursor, reached, p.next);
      events := events + p.events;
      reached := p.next;
    }
  }

  lemma ReachIsBounded(s: State, after: Revision, next: Revision, maxEvents: nat, maxKeys: nat)
    requires PollReaches(s, after, next, maxEvents, maxKeys)
    ensures after <= next <= s.current
  {
  }

  // ------------------------------------------------------------ cache coherence

  /** A step that names keys moves the revision for all later states. */
  lemma NamedStepAdvances(run: seq<Step>, x: nat, y: nat)
    requires Runs(FRESH, run) && x < y <= |run| && Named(At(FRESH, run, x), run[x]) != []
    ensures At(FRESH, run, x).current < At(FRESH, run, y).current
  {
    hide Enabled, Next, Named;
    assert Takes(FRESH, run, x);
    hide Runs;
    StepRevision(At(FRESH, run, x), run[x]);
    RevisionGrows(run, x + 1, y);
  }

  /** The retained keys of a revision are those named by the step that took it. */
  lemma KeysOfStep(run: seq<Step>, x: nat, n: nat)
    requires Runs(FRESH, run) && x < n <= |run| && Named(At(FRESH, run, x), run[x]) != []
    requires At(FRESH, run, x).current + 1 in At(FRESH, run, n).keys
    ensures var s, r := At(FRESH, run, n), At(FRESH, run, x).current + 1;
            s.keys[r] == Named(At(FRESH, run, x), run[x]) && r in s.commits && MadeBy(run[x], s.commits[r].origin)
  {
    hide Enabled, Next, Named, At, Runs, MadeBy;
    var r := At(FRESH, run, x).current + 1;
    LogRecordsRun(run, n, r);
    var y :| 0 <= y < n && At(FRESH, run, y).current + 1 == r && Named(At(FRESH, run, y), run[y]) != []
             && At(FRESH, run, n).keys[r] == Named(At(FRESH, run, y), run[y])
             && r in At(FRESH, run, n).commits && MadeBy(run[y], At(FRESH, run, n).commits[r].origin);
    if x < y {
      NamedStepAdvances(run, x, y);
    } else if y < x {
      NamedStepAdvances(run, y, x);
    }
  }

  /** An event of the run past the cursor is among the polled events. */
  lemma StepIsPolled(run: seq<Step>, m: nat, x: nat, n: nat, k: Key)
    requires Runs(FRESH, run) && m <= x < n <= |run|
    requires At(FRESH, run, n).oldest <= At(FRESH, run, m).current
    requires k in Named(At(FRESH, run, x), run[x])
    ensures exists e :: e in Events(At(FRESH, run, n), At(FRESH, run, m).current, At(FRESH, run, n).current)
              && k in e.keys && e.revision == At(FRESH, run, x).current + 1 && MadeBy(run[x], e.origin)
  {
    hide Enabled, Next, Named, Inv, LogExact, Events, Runs, MadeBy;
    RevisionGrows(run, m, x);
    NamedStepAdvances(run, x, n);
    InvAlways(run, n);
    InvLog(At(FRESH, run, n));
    LoggedIsWhole(At(FRESH, run, n), At(FRESH, run, x).current + 1);
    KeysOfStep(run, x, n);
    LoggedIsAmong(At(FRESH, run, n), At(FRESH, run, m).current, At(FRESH, run, x).current + 1);
  }

  lemma LoggedIsAmong(s: State, cursor: Revision, r: Revision)
    requires LogExact(s) && s.oldest <= cursor < r <= s.current
    ensures Logged(s, r) && EventAt(s, r) in Events(s, cursor, s.current)
  {
    hide LogExact, Events;
    EventIs(s, cursor, s.current, r - cursor - 1);
  }

  /** A client that read at state `m` and evicts every key of the events polled in
      state `n` holds only values equal to a fresh read in state `n`. */
  lemma CacheFollowsFeed(run: seq<Step>, m: nat, n: nat, k: Key)
    requires Runs(FRESH, run) && m <= n <= |run|
    requires At(FRESH, run, n).oldest <= At(FRESH, run, m).current
    requires forall e | e in Events(At(FRESH, run, n), At(FRESH, run, m).current, At(FRESH, run, n).current)
               :: k !in e.keys
    ensures Lookup(At(FRESH, run, n).table, k) == Lookup(At(FRESH, run, m).table, k)
  {
    hide Enabled, Next, Named, Events;
    forall x | m <= x < n ensures k !in Named(At(FRESH, run, x), run[x]) {
      if k in Named(At(FRESH, run, x), run[x]) {
        StepIsPolled(run, m, x, n, k);
      }
    }
    CacheExact(run, m, n, k);
  }
}
