/** The canonical key order of one event
    (crates/w9pt-fs-state-postgres/src/key_codec.rs `canonical_affected_keys`,
    crates/w9pt-fs-state-postgres/src/commit.rs `changed_keys`). */
module EventOrder {
  import opened Values
  import opened Records
  import opened Requests
  import opened Effects
  import opened Authority

  lemma KeyOrderTotal(a: Key, b: Key)
    ensures a == b || KeyLess(a, b) || KeyLess(b, a)
  {
    LexLessTotal(Rank(a), Rank(b));
    if Rank(a) == Rank(b) {
      RankInjective(a, b);
    }
  }

  lemma KeyOrderTransitive(a: Key, b: Key, c: Key)
    requires KeyLess(a, b) && KeyLess(b, c)
    ensures KeyLess(a, c)
  {
    LexLessTransitive(Rank(a), Rank(b), Rank(c));
  }

  /** Inserts one key into a canonical sequence that lacks it. */
  method InsertKey(keys: seq<Key>, k: Key) returns (r: seq<Key>)
    requires Canonical(keys) && k !in keys
    ensures Canonical(r) && |r| == |keys| + 1
    ensures forall x :: x in r <==> x in keys || x == k
  {
    hide KeyLess;
    var i := 0;
    while i < |keys| && KeyLess(keys[i], k)
      invariant 0 <= i <= |keys|
      invariant forall x | 0 <= x < i :: KeyLess(keys[x], k)
    {
      i := i + 1;
    }
    forall x | i <= x < |keys| ensures KeyLess(k, keys[x]) {
      KeyOrderTotal(k, keys[i]);
      if x > i {
        KeyOrderTransitive(k, keys[i], keys[x]);
      }
    }
    r := keys[..i] + [k] + keys[i..];
    assert forall x :: x in keys <==> x in keys[..i] || x in keys[i..] by {
      assert keys == keys[..i] + keys[i..];
    }
  }

  /** The sorted vector of an ordered set. */
  method SortKeys(keys: set<Key>) returns (r: seq<Key>)
    ensures Canonical(r) && |r| == |keys|
    ensures forall k :: k in r <==> k in keys
  {
    r := [];
    var rest := keys;
    while rest != {}
      invariant rest <= keys && Canonical(r) && |r| + |rest| == |keys|
      invariant forall k :: k in r <==> k in keys && k !in rest
      decreases |rest|
    {
      var k :| k in rest;
      r := InsertKey(r, k);
      rest := rest - {k};
    }
  }

  /** The event keys of a request with disjoint targets: what its changes declare
      and its ledger row, in order. */
  method ChangedKeys(q: Request) returns (keys: seq<Key>)
    requires PreflightOk(q)
    ensures EventKeys(q, keys) && |keys| <= |Claimed(q.changes)| + 1
  {
    var _, targets := CheckDistinctTargets(q.changes);
    forall k ensures k in targets <==> Touched(q.changes, k) {
      ClaimedByOne(q.changes, k);
      if x :| 0 <= x < |q.changes| && Touches(q.changes[x], k) {
        assert q.changes[x] in q.changes;
      }
    }
    keys := SortKeys(targets + {MutationKey(q.mutation.id)});
  }

  /** Canonical sequences with the same keys are equal, so an event is determined
      by the set of keys it names. */
  lemma {:induction false} CanonicalUnique(a: seq<Key>, b: seq<Key>)
    requires Canonical(a) && Canonical(b) && forall k :: k in a <==> k in b
    ensures a == b
    decreases |a|
  {
    assert b != [] ==> b[0] in b;
    if a != [] {
      assert a[0] in a;
      FirstIsLeast(a, b);
      assert forall k :: k in a[1..] <==> k in a && k != a[0] by { TailKeys(a); }
      assert forall k :: k in b[1..] <==> k in b && k != b[0] by { TailKeys(b); }
      CanonicalUnique(a[1..], b[1..]);
      assert a == [a[0]] + a[1..] && b == [b[0]] + b[1..];
    }
  }

  lemma TailKeys(a: seq<Key>)
    requires Canonical(a) && a != []
    ensures Canonical(a[1..])
    ensures forall k :: k in a[1..] <==> k in a && k != a[0]
  {
    forall k ensures k in a[1..] <==> k in a && k != a[0] {
      LexLessIrreflexive(Rank(a[0]));
      if k in a[1..] {
        var x :| 0 <= x < |a| - 1 && a[1..][x] == k;
        assert KeyLess(a[0], a[x + 1]);
      }
      if k in a && k != a[0] {
        var x :| 0 <= x < |a| && a[x] == k;
        assert a[1..][x - 1] == k;
      }
    }
  }

  lemma FirstIsLeast(a: seq<Key>, b: seq<Key>)
    requires Canonical(a) && Canonical(b) && a != [] && b != [] && forall k :: k in a <==> k in b
    ensures a[0] == b[0]
  {
    assert a[0] in a && b[0] in b;
    var x :| 0 <= x < |b| && b[x] == a[0];
    var y :| 0 <= y < |a| && a[y] == b[0];
    if x > 0 && y > 0 {
      assert KeyLess(b[0], b[x]) && KeyLess(a[0], a[y]);
      LexLessTransitive(Rank(a[0]), Rank(b[0]), Rank(a[0]));
      LexLessIrreflexive(Rank(a[0]));
    }
  }
}
