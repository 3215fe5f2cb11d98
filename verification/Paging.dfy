/** Ordered scans in bounded pages (crates/w9pt-fs-state-postgres/src/read.rs,
    crates/w9pt-fs-state/src/read.rs). */
module Paging {
  import opened Values
  import opened Records

  /** A candidate row: its exclusive cursor and its retained size. */
  datatype Item = Item(key: Key, record: Record, cursor: seq<nat>, bytes: nat)

  datatype ScanPlan = TooSmall(required: nat) | Page(items: seq<Item>, resume: Option<seq<nat>>)

  ghost predicate Ascending(items: seq<Item>)
  {
    forall x, y | 0 <= x < y < |items| :: LexLess(items[x].cursor, items[y].cursor)
  }

  // ------------------------------------------------------------ greedy pages

  /** How many leading items fit both bounds. */
  function Fit(items: seq<Item>, maxItems: nat, room: nat): (n: nat)
    ensures n <= |items| && n <= maxItems
  {
    if items == [] || maxItems == 0 || items[0].bytes > room then 0
    else 1 + Fit(items[1..], maxItems - 1, room - items[0].bytes)
  }

  function Bytes(items: seq<Item>): nat
  {
    if items == [] then 0 else items[0].bytes + Bytes(items[1..])
  }

  /** The page a plain ordered scan would answer. */
  function Plan(items: seq<Item>, maxItems: nat, maxBytes: nat): ScanPlan
    requires maxItems > 0
  {
    var n := Fit(items, maxItems, maxBytes);
    if n == 0 && items != [] then TooSmall(items[0].bytes)
    else Page(items[..n], if n < |items| then Some(items[n - 1].cursor) else None)
  }

  lemma {:induction false} BytesConcat(a: seq<Item>, b: seq<Item>)
    ensures Bytes(a + b) == Bytes(a) + Bytes(b)
    decreases |a|
  {
    if a == [] {
      assert a + b == b;
    } else {
      BytesConcat(a[1..], b);
      assert (a + b)[1..] == a[1..] + b;
    }
  }

  /** `Fit` is the longest prefix within both bounds. */
  lemma {:induction false} FitIsLongest(items: seq<Item>, maxItems: nat, room: nat, n: nat)
    requires n <= |items|
    ensures n <= Fit(items, maxItems, room) <==> n <= maxItems && Bytes(items[..n]) <= room
    decreases |items|
  {
    if n > 0 {
      assert items[..n][1..] == items[1..][..n - 1];
      if maxItems > 0 && items[0].bytes <= room {
        FitIsLongest(items[1..], maxItems - 1, room - items[0].bytes, n - 1);
      }
    }
  }

  /** `plan_scan_candidates`; `None` is detected disorder. */
  method PlanCandidates(candidates: seq<Item>, maxItems: nat, maxBytes: nat) returns (plan: Option<ScanPlan>)
    requires maxItems > 0
    ensures Ascending(candidates) && |candidates| <= maxItems + 1 ==> plan == Some(Plan(candidates, maxItems, maxBytes))
  {
    if |candidates| > maxItems + 1 {
      return None;
    }
    var n, bytes := 0, 0;
    var stopped := false;
    while n < |candidates| && !stopped
      invariant 0 <= n <= |candidates| && n <= maxItems
      invariant bytes == Bytes(candidates[..n]) <= maxBytes
      invariant stopped ==> 0 < n < |candidates|
      invariant stopped ==> n == maxItems || Bytes(candidates[..n + 1]) > maxBytes
      decreases |candidates| - n, !stopped
    {
      if n > 0 && !LexLess(candidates[n - 1].cursor, candidates[n].cursor) {
        return None;
      }
      assert candidates[..n + 1] == candidates[..n] + [candidates[n]];
      BytesConcat(candidates[..n], [candidates[n]]);
      if n == maxItems {
        stopped := true;
      } else if bytes + candidates[n].bytes > maxBytes {
        FitIsLongest(candidates, maxItems, maxBytes, n);
        FitIsLongest(candidates, maxItems, maxBytes, n + 1);
        if n == 0 {
          return Some(TooSmall(candidates[n].bytes));
        }
        stopped := true;
      } else {
        bytes := bytes + candidates[n].bytes;
        n := n + 1;
      }
    }
    FitIsLongest(candidates, maxItems, maxBytes, n);
    if n < |candidates| {
      FitIsLongest(candidates, maxItems, maxBytes, n + 1);
    }
    return Some(Page(candidates[..n], if stopped then Some(candidates[n - 1].cursor) else None));
  }

  // -------------------------------------------------------------- prefilter

  /** Rows whose predecessors do not already exceed the byte bound. */
  function WithinBytes(items: seq<Item>, prior: nat, maxBytes: nat): seq<Item>
  {
    if items == [] then []
    else (if prior <= maxBytes then [items[0]] else []) + WithinBytes(items[1..], prior + items[0].bytes, maxBytes)
  }

  /** The rows the scan query returns: one item of lookahead, cut by bytes. */
  function Candidates(items: seq<Item>, maxItems: nat, maxBytes: nat): seq<Item>
  {
    WithinBytes(if |items| <= maxItems + 1 then items else items[..maxItems + 1], 0, maxBytes)
  }

  lemma {:induction false} NothingBeyond(items: seq<Item>, prior: nat, maxBytes: nat)
    requires prior > maxBytes
    ensures WithinBytes(items, prior, maxBytes) == []
    decreases |items|
  {
    if items != [] {
      NothingBeyond(items[1..], prior + items[0].bytes, maxBytes);
    }
  }

  /** The byte cut returns a prefix that contains the first item that does not fit. */
  lemma {:induction false} CutIsPrefix(items: seq<Item>, prior: nat, maxBytes: nat)
    requires prior <= maxBytes
    ensures var cut := WithinBytes(items, prior, maxBytes);
            && cut <= items
            && (|cut| < |items| ==> Bytes(cut) > maxBytes - prior)
    decreases |items|
  {
    if items != [] {
      var cut := WithinBytes(items, prior, maxBytes);
      var tail := WithinBytes(items[1..], prior + items[0].bytes, maxBytes);
      assert cut == [items[0]] + tail;
      assert cut[1..] == tail;
      if prior + items[0].bytes <= maxBytes {
        CutIsPrefix(items[1..], prior + items[0].bytes, maxBytes);
      } else {
        NothingBeyond(items[1..], prior + items[0].bytes, maxBytes);
      }
    }
  }

  /** Planning over a prefix that shows why it stops is planning over the whole. */
  lemma PrefixPlans(items: seq<Item>, cut: seq<Item>, maxItems: nat, maxBytes: nat)
    requires maxItems > 0 && cut <= items
    requires |cut| < |items| ==> |cut| > maxItems || Bytes(cut) > maxBytes
    ensures Plan(cut, maxItems, maxBytes) == Plan(items, maxItems, maxBytes)
  {
    hide Fit, Bytes;
    var n := Fit(items, maxItems, maxBytes);
    var m := Fit(cut, maxItems, maxBytes);
    FitIsLongest(items, maxItems, maxBytes, m);
    FitIsLongest(cut, maxItems, maxBytes, m);
    assert items[..m] == cut[..m];
    if |cut| < |items| {
      FitIsLongest(cut, maxItems, maxBytes, |cut|);
      assert cut[..|cut|] == cut;
      assert m < |cut|;
    }
    if m < |cut| {
      FitIsLongest(cut, maxItems, maxBytes, m + 1);
      FitIsLongest(items, maxItems, maxBytes, m + 1);
      assert items[..m + 1] == cut[..m + 1];
    }
    assert n == m;
  }

  /** Planning over the prefiltered rows gives the page of the whole remaining scan. */
  lemma PrefilterRefinesScan(items: seq<Item>, maxItems: nat, maxBytes: nat)
    requires maxItems > 0
    ensures Plan(Candidates(items, maxItems, maxBytes), maxItems, maxBytes) == Plan(items, maxItems, maxBytes)
    ensures Candidates(items, maxItems, maxBytes) <= items
    ensures |Candidates(items, maxItems, maxBytes)| <= maxItems + 1
  {
    var window := if |items| <= maxItems + 1 then items else items[..maxItems + 1];
    CutIsPrefix(window, 0, maxBytes);
    PrefixPlans(items, Candidates(items, maxItems, maxBytes), maxItems, maxBytes);
  }

  // ------------------------------------------------------------- validation

  ghost predicate PageOk(items: seq<Item>, resume: Option<seq<nat>>, after: Option<seq<nat>>,
                         snapshot: Revision, maxItems: nat, maxBytes: nat)
  {
    && |items| <= maxItems
    && Bytes(items) <= maxBytes
    && Ascending(items)
    && (forall i | 0 <= i < |items| :: RevisionOf(items[i].record) <= snapshot && Beyond(after, items[i].cursor))
    && (resume.Some? ==> items != [] && resume.value == items[|items| - 1].cursor)
  }

  predicate Beyond(after: Option<seq<nat>>, cursor: seq<nat>)
  {
    after.None? || LexLess(after.value, cursor)
  }

  /** `ScanPage::validate_against`, on a page of the requested family. */
  method ValidatePage(items: seq<Item>, resume: Option<seq<nat>>, after: Option<seq<nat>>,
                      snapshot: Revision, maxItems: nat, maxBytes: nat) returns (ok: bool)
    ensures ok <==> PageOk(items, resume, after, snapshot, maxItems, maxBytes)
  {
    if |items| > maxItems {
      return false;
    }
    var bytes := 0;
    for i := 0 to |items|
      invariant bytes == Bytes(items[..i]) <= maxBytes
      invariant Ascending(items[..i])
      invariant forall x | 0 <= x < i :: RevisionOf(items[x].record) <= snapshot && Beyond(after, items[x].cursor)
    {
      if RevisionOf(items[i].record) > snapshot || !Beyond(after, items[i].cursor) {
        return false;
      }
      if i > 0 && !LexLess(items[i - 1].cursor, items[i].cursor) {
        return false;
      }
      ExtendAscending(items, i);
      assert items[..i + 1] == items[..i] + [items[i]];
      BytesConcat(items[..i], [items[i]]);
      bytes := bytes + items[i].bytes;
      if bytes > maxBytes {
        BytesConcat(items[..i + 1], items[i + 1..]);
        assert items == items[..i + 1] + items[i + 1..];
        return false;
      }
    }
    assert items[..|items|] == items;
    return resume.None? || (items != [] && resume.value == items[|items| - 1].cursor);
  }

  lemma ExtendAscending(items: seq<Item>, i: nat)
    requires i < |items| && Ascending(items[..i])
    requires i > 0 ==> LexLess(items[i - 1].cursor, items[i].cursor)
    ensures Ascending(items[..i + 1])
  {
    var longer := items[..i + 1];
    forall x, y | 0 <= x < y < |longer| ensures LexLess(longer[x].cursor, longer[y].cursor) {
      assert forall z | 0 <= z < i :: longer[z] == items[..i][z];
      if y == i && x < i - 1 {
        assert LexLess(items[..i][x].cursor, items[..i][i - 1].cursor);
        LexLessTransitive(items[x].cursor, items[i - 1].cursor, items[i].cursor);
      }
    }
  }

  /** Every planned page passes the portable validator. */
  lemma PlannedPageIsValid(items: seq<Item>, after: Option<seq<nat>>, snapshot: Revision, maxItems: nat, maxBytes: nat)
    requires maxItems > 0 && Ascending(items)
    requires forall x | x in items :: RevisionOf(x.record) <= snapshot && Beyond(after, x.cursor)
    requires Plan(items, maxItems, maxBytes).Page?
    ensures var p := Plan(items, maxItems, maxBytes);
            PageOk(p.items, p.resume, after, snapshot, maxItems, maxBytes)
  {
    hide Fit, Bytes;
    var n := Fit(items, maxItems, maxBytes);
    FitIsLongest(items, maxItems, maxBytes, n);
    assert forall i | 0 <= i < n :: items[..n][i] == items[i] && items[i] in items;
  }

  // ------------------------------------------------------------- whole scans

  /** The part of an ordered list past a cursor. */
  function After(items: seq<Item>, cursor: Option<seq<nat>>): seq<Item>
  {
    if items == [] then []
    else if Beyond(cursor, items[0].cursor) then items
    else After(items[1..], cursor)
  }

  lemma {:induction false} AfterSkips(items: seq<Item>, n: nat)
    requires Ascending(items) && 0 < n <= |items|
    ensures After(items, Some(items[n - 1].cursor)) == items[n..]
    decreases |items|
  {
    var cursor := items[n - 1].cursor;
    LexLessIrreflexive(cursor);
    if n == 1 {
      if |items| > 1 {
        assert items[1..][0] == items[1];
      }
    } else {
      LexLessAsymmetric(items[0].cursor, cursor);
      assert Ascending(items[1..]);
      AfterSkips(items[1..], n - 1);
      assert items[1..][n - 1..] == items[n..];
    }
  }

  lemma LexLessAsymmetric(a: seq<nat>, b: seq<nat>)
    requires LexLess(a, b)
    ensures !LexLess(b, a)
  {
    if LexLess(b, a) {
      LexLessTransitive(a, b, a);
      LexLessIrreflexive(a);
    }
  }

  lemma {:induction false} AfterIsSuffix(items: seq<Item>, cursor: Option<seq<nat>>)
    requires Ascending(items)
    ensures Ascending(After(items, cursor))
    ensures |After(items, cursor)| <= |items|
    ensures After(items, cursor) == items[|items| - |After(items, cursor)|..]
    decreases |items|
  {
    if items != [] && !Beyond(cursor, items[0].cursor) {
      AfterIsSuffix(items[1..], cursor);
    }
  }

  /** One page request: the prefiltered query and the planner answer the page of a
      plain scan of everything past the cursor. */
  method ReadPage(items: seq<Item>, cursor: Option<seq<nat>>, maxItems: nat, maxBytes: nat)
    returns (plan: ScanPlan)
    requires maxItems > 0 && Ascending(items)
    ensures plan == Plan(After(items, cursor), maxItems, maxBytes)
  {
    var rest := After(items, cursor);
    AfterIsSuffix(items, cursor);
    PrefilterRefinesScan(rest, maxItems, maxBytes);
    var candidates := Candidates(rest, maxItems, maxBytes);
    assert candidates == rest[..|candidates|];
    assert Ascending(candidates);
    var planned := PlanCandidates(candidates, maxItems, maxBytes);
    return planned.value;
  }

  lemma FirstFits(rest: seq<Item>, maxItems: nat, maxBytes: nat)
    requires maxItems > 0 && rest != [] && rest[0].bytes <= maxBytes
    ensures Fit(rest, maxItems, maxBytes) > 0
  {
  }

  /** Following resumes reads the whole ordered list: no gap, no repeat. */
  method ScanAll(items: seq<Item>, maxItems: nat, maxBytes: nat) returns (all: seq<Item>)
    requires maxItems > 0 && Ascending(items) && forall x | x in items :: x.bytes <= maxBytes
    ensures all == items
  {
    hide Ascending, Fit, After;
    var read := 0;
    var cursor: Option<seq<nat>> := None;
    all := [];
    assert After(items, cursor) == items[read..] by { StartsWhole(items); }
    while true
      invariant 0 <= read <= |items| && all == items[..read]
      invariant After(items, cursor) == items[read..]
      decreases |items| - read
    {
      var page := ReadPage(items, cursor, maxItems, maxBytes);
      if read < |items| {
        assert items[read] in items;
        FirstFits(items[read..], maxItems, maxBytes);
      }
      all := all + page.items;
      read := read + |page.items|;
      if page.resume.None? {
        return;
      }
      cursor := page.resume;
      AfterSkips(items, read);
    }
  }

  lemma StartsWhole(items: seq<Item>)
    ensures After(items, None) == items[0..]
  {
  }
}
