/** Family scans over the record table and directory enumeration across changing
    states (crates/w9pt-fs-state-postgres/src/read.rs:87-202, 904-1006, 1369-1531;
    crates/w9pt-fs-state/src/read.rs:576-617, 728-821). */
module Enumeration {
  import opened Values
  import opened Records
  import opened Applying
  import opened Targeting
  import opened Accounting
  import opened Paging

  /** What a scan selects: one record family in key order, or the entries of one
      directory in cookie order; a directory page also joins the child inode. */
  datatype Scan = Family(tag: nat) | EntriesOf(parent: InodeId) | PageOf(parent: InodeId)

  const FILESYSTEM_TAG := 0
  const ENTRY_TAG := 3

  function CursorOf(scan: Scan, t: Table, k: Key): Option<seq<nat>>
    requires k in t
  {
    match scan
    case Family(tag) =>
      if Rank(k)[0] == tag && tag != FILESYSTEM_TAG && tag != ENTRY_TAG then Some(Rank(k)[1..]) else None
    case EntriesOf(p) =>
      if k.EntryKey? && k.parent == p && t[k].EntryRecord? then Some([t[k].entry.cookie]) else None
    case PageOf(p) =>
      if k.EntryKey? && k.parent == p && t[k].EntryRecord? && InodeAt(t, t[k].entry.child).Some?
      then Some([t[k].entry.cookie]) else None
  }

  function KeyBytes(k: Key): nat
  {
    64 + if k.EntryKey? || k.XattrKey? then |k.name| else 0
  }

  function RecordBytes(r: Record): nat
  {
    match r
    case FilesystemRecord(_) => 128
    case InodeRecord(n) =>
      256 + |n.attributes.owner| + |n.attributes.group|
      + (match n.data
         case RegularData(_, Some(c), _) => |c.manifestKey|
         case SymlinkData(target) => |target|
         case _ => 0)
    case ContentMetadataRecord(c) => 96 + |c.policyBytes| + if c.wrappedKey.Some? then |c.wrappedKey.value| else 0
    case EntryRecord(e) => 96 + |e.name|
    case OpenRecord(_) => 128
    case OpenPinRecord(_) => 128
    case OrphanRecord(_) => 128
    case LockRecord(_) => 128
    case XattrRecord(x) => 96 + |x.name| + |x.value|
    case XattrStagingRecord(s) => 112 + |s.name| + |s.bytes|
    case MutationRecord(m) => 256 + |m.result|
    case WriterLeaseRecord(_) => 128
  }

  function ItemBytes(scan: Scan, k: Key, r: Record): nat
  {
    if scan.PageOf? && k.EntryKey? then 192 + 2 * |k.name| else KeyBytes(k) + RecordBytes(r)
  }

  /** The byte expression of each scan query. */
  function SqlBytes(r: Record): nat
  {
    match r
    case FilesystemRecord(_) => 192
    case InodeRecord(n) =>
      320 + |n.attributes.owner| + |n.attributes.group|
      + (if n.data.RegularData? && n.data.content.Some? then |n.data.content.value.manifestKey|
         else if n.data.SymlinkData? then |n.data.target| else 0)
    case ContentMetadataRecord(c) => 160 + |c.policyBytes| + if c.wrappedKey.None? then 0 else |c.wrappedKey.value|
    case EntryRecord(e) => 160 + 2 * |e.name|
    case OpenRecord(_) => 192
    case OpenPinRecord(_) => 192
    case OrphanRecord(_) => 192
    case LockRecord(_) => 192
    case XattrRecord(x) => 160 + 2 * |x.name| + |x.value|
    case XattrStagingRecord(s) => 176 + |s.name| + |s.bytes|
    case MutationRecord(m) => 320 + |m.result|
    case WriterLeaseRecord(_) => 192
  }

  /** The database's estimate and the portable one agree on every stored row. */
  lemma ByteEstimatesAgree(k: Key, r: Record)
    requires Names(r, k)
    ensures SqlBytes(r) == KeyBytes(k) + RecordBytes(r)
  {
  }

  predicate Selects(scan: Scan, t: Table, k: Key)
  {
    k in t && CursorOf(scan, t, k).Some?
  }

  function ItemAt(scan: Scan, t: Table, k: Key): Item
    requires Selects(scan, t, k)
  {
    Item(k, t[k], CursorOf(scan, t, k).value, ItemBytes(scan, k, t[k]))
  }

  /** The ordered list of everything the scan selects. */
  ghost predicate Listed(scan: Scan, t: Table, items: seq<Item>)
  {
    && Ascending(items)
    && (forall i | 0 <= i < |items| :: Selects(scan, t, items[i].key) && items[i] == ItemAt(scan, t, items[i].key))
    && (forall k | Selects(scan, t, k) :: ItemAt(scan, t, k) in items)
  }

  ghost predicate UnderDirectory(t: Table, d: InodeId, e: Entry)
  {
    var k := EntryKey(d, e.name);
    k in t && t[k] == EntryRecord(e)
  }

  /** What a scan is for: the rows of one family, or the entries of one directory, on a
      page with their children. The header and the entries are no family of their own. */
  ghost predicate InScope(scan: Scan, t: Table, k: Key)
  {
    k in t &&
    match scan
    case Family(tag) =>
      (match t[k]
       case InodeRecord(_) => tag == 1
       case ContentMetadataRecord(_) => tag == 2
       case OpenRecord(_) => tag == 4
       case OpenPinRecord(_) => tag == 5
       case OrphanRecord(_) => tag == 6
       case LockRecord(_) => tag == 7
       case XattrRecord(_) => tag == 8
       case XattrStagingRecord(_) => tag == 9
       case MutationRecord(_) => tag == 10
       case WriterLeaseRecord(_) => tag == 11
       case _ => false)
    case EntriesOf(p) => exists e :: UnderDirectory(t, p, e) && k == EntryKey(p, e.name)
    case PageOf(p) => exists e :: UnderDirectory(t, p, e) && k == EntryKey(p, e.name) && InodeAt(t, e.child).Some?
  }

  /** The order of the identities within a family: inode before open, lock or name. */
  predicate IdentityLess(a: Key, b: Key)
  {
    match (a, b)
    case (InodeKey(i), InodeKey(j)) => i < j
    case (ContentMetadataKey(i), ContentMetadataKey(j)) => i < j
    case (OpenKey(i), OpenKey(j)) => i < j
    case (OpenPinKey(i, x), OpenPinKey(j, y)) => i < j || (i == j && x < y)
    case (OrphanKey(i), OrphanKey(j)) => i < j
    case (LockKey(i, x), LockKey(j, y)) => i < j || (i == j && x < y)
    case (XattrKey(i, x), XattrKey(j, y)) => i < j || (i == j && LexLess(x, y))
    case (XattrStagingKey(i), XattrStagingKey(j)) => i < j
    case (MutationKey(i), MutationKey(j)) => i < j
    case (WriterLeaseKey(i), WriterLeaseKey(j)) => i < j
    case _ => false
  }

  ghost predicate Precedes(scan: Scan, a: Item, b: Item)
  {
    if scan.Family? then IdentityLess(a.key, b.key)
    else a.record.EntryRecord? && b.record.EntryRecord? && a.record.entry.cookie < b.record.entry.cookie
  }

  /** The items are the rows in scope, each once, in identity or cookie order, with the
      size of the query's byte expression. */
  ghost predicate Scanned(scan: Scan, t: Table, items: seq<Item>)
  {
    && (forall x | 0 <= x < |items| :: InScope(scan, t, items[x].key) && items[x].record == t[items[x].key])
    && (forall k | InScope(scan, t, k) :: exists x :: 0 <= x < |items| && items[x].key == k)
    && (forall x, y | 0 <= x < y < |items| :: Precedes(scan, items[x], items[y]))
    && (!scan.PageOf? ==> forall x | 0 <= x < |items| :: items[x].bytes == SqlBytes(items[x].record))
  }

  lemma SelectsInScope(scan: Scan, t: Table, k: Key)
    requires WellKeyed(t)
    ensures Selects(scan, t, k) <==> InScope(scan, t, k)
  {
    if k in t {
      assert Names(t[k], k);
      if scan.Family? {
        FamilyRows(scan.tag, t, k);
      } else if k.EntryKey? && k.parent == scan.parent {
        assert UnderDirectory(t, scan.parent, t[k].entry);
      }
    }
  }

  lemma FamilyRows(tag: nat, t: Table, k: Key)
    requires k in t && Names(t[k], k)
    ensures Rank(k) != []
    ensures Rank(k)[0] == tag && tag != 0 && tag != 3 <==> InScope(Family(tag), t, k)
  {
  }

  lemma PlainCookieOrder(a: nat, b: nat)
    ensures LexLess([a], [b]) <==> a < b
  {
  }

  lemma PairOrder(a: nat, x: seq<nat>, b: nat, y: seq<nat>)
    ensures LexLess([a] + x, [b] + y) <==> a < b || (a == b && LexLess(x, y))
  {
    assert ([a] + x)[1..] == x && ([b] + y)[1..] == y;
  }

  lemma PinOrder(i: InodeId, x: nat, j: InodeId, y: nat)
    ensures LexLess([i, x], [j, y]) <==> i < j || (i == j && x < y)
  {
    assert [i, x] == [i] + [x] && [j, y] == [j] + [y];
    PairOrder(i, [x], j, [y]);
    PlainCookieOrder(x, y);
  }

  predicate SameFamily(a: Key, b: Key)
  {
    Rank(a)[0] == Rank(b)[0] && Rank(a)[0] != FILESYSTEM_TAG && Rank(a)[0] != ENTRY_TAG
  }

  lemma SingleOrder(a: Key, b: Key)
    requires SameFamily(a, b) && !a.XattrKey? && !a.OpenPinKey? && !a.LockKey?
    ensures LexLess(Rank(a)[1..], Rank(b)[1..]) <==> IdentityLess(a, b)
  {
    hide LexLess;
    var x, y := Rank(a)[1], Rank(b)[1];
    assert Rank(a)[1..] == [x] && Rank(b)[1..] == [y];
    PlainCookieOrder(x, y);
    assert IdentityLess(a, b) <==> x < y;
  }

  /** Within one family, key cursors are ordered as the identities are. */
  lemma IdentityOrder(a: Key, b: Key)
    requires SameFamily(a, b)
    ensures LexLess(Rank(a)[1..], Rank(b)[1..]) <==> IdentityLess(a, b)
  {
    match (a, b)
    case (XattrKey(i, x), XattrKey(j, y)) =>
      assert Rank(a)[1..] == [i] + x && Rank(b)[1..] == [j] + y;
      PairOrder(i, x, j, y);
    case (OpenPinKey(i, x), OpenPinKey(j, y)) =>
      assert Rank(a)[1..] == [i, x] && Rank(b)[1..] == [j, y];
      PinOrder(i, x, j, y);
    case (LockKey(i, x), LockKey(j, y)) =>
      assert Rank(a)[1..] == [i, x] && Rank(b)[1..] == [j, y];
      PinOrder(i, x, j, y);
    case _ => SingleOrder(a, b);
  }

  lemma ListedPrecedes(scan: Scan, t: Table, items: seq<Item>, x: nat, y: nat)
    requires WellKeyed(t) && Listed(scan, t, items) && x < y < |items|
    ensures Precedes(scan, items[x], items[y])
  {
    var a, b := items[x], items[y];
    assert Selects(scan, t, a.key) && a == ItemAt(scan, t, a.key);
    assert Selects(scan, t, b.key) && b == ItemAt(scan, t, b.key);
    assert LexLess(a.cursor, b.cursor);
    if scan.Family? {
      hide Rank, WellKeyed, Listed, IdentityLess;
      assert a.cursor == Rank(a.key)[1..] && b.cursor == Rank(b.key)[1..];
      IdentityOrder(a.key, b.key);
    } else {
      PlainCookieOrder(a.record.entry.cookie, b.record.entry.cookie);
    }
  }

  /** The list of the selected rows is the scan, stated without cursors. */
  lemma ListedIsScanned(scan: Scan, t: Table, items: seq<Item>)
    requires WellKeyed(t) && Listed(scan, t, items)
    ensures Scanned(scan, t, items)
  {
    hide CursorOf, InScope, SqlBytes, RecordBytes, KeyBytes;
    forall x | 0 <= x < |items|
      ensures InScope(scan, t, items[x].key) && items[x].record == t[items[x].key]
      ensures !scan.PageOf? ==> items[x].bytes == SqlBytes(items[x].record)
    {
      assert Selects(scan, t, items[x].key);
      SelectsInScope(scan, t, items[x].key);
      ByteEstimatesAgree(items[x].key, items[x].record);
    }
    forall k | InScope(scan, t, k) ensures exists x :: 0 <= x < |items| && items[x].key == k {
      SelectsInScope(scan, t, k);
      var x :| 0 <= x < |items| && items[x] == ItemAt(scan, t, k);
    }
    forall x, y | 0 <= x < y < |items| ensures Precedes(scan, items[x], items[y]) {
      ListedPrecedes(scan, t, items, x, y);
    }
  }

  /** Selected rows have different cursors: keys by identity, entries by the unique
      cookie constraint. */
  lemma CursorsDiffer(scan: Scan, t: Table, j: Key, k: Key)
    requires WellKeyed(t) && ConstraintsHold(t) && Selects(scan, t, j) && Selects(scan, t, k) && j != k
    ensures CursorOf(scan, t, j) != CursorOf(scan, t, k)
  {
    if scan.Family? {
      hide WellKeyed, ConstraintsHold, Rank;
      FamilyCursorsDiffer(j, k);
    } else {
      EntryCursorsDiffer(t, j, k);
    }
  }

  lemma FamilyCursorsDiffer(j: Key, k: Key)
    requires j != k
    ensures Rank(j) != [] && Rank(k) != []
    ensures Rank(j)[0] == Rank(k)[0] ==> Rank(j)[1..] != Rank(k)[1..]
  {
    assert Rank(j) != [] && Rank(k) != [];
    hide Rank;
    SplitHead(Rank(j));
    SplitHead(Rank(k));
    if Rank(j) == Rank(k) {
      RankInjective(j, k);
    }
  }

  lemma SplitHead(s: seq<nat>)
    requires s != []
    ensures s == [s[0]] + s[1..]
  {
  }

  lemma EntryCursorsDiffer(t: Table, j: Key, k: Key)
    requires WellKeyed(t) && ConstraintsHold(t) && j in t && k in t && j != k
    requires j.EntryKey? && k.EntryKey? && j.parent == k.parent && t[j].EntryRecord? && t[k].EntryRecord?
    ensures t[j].entry.cookie != t[k].entry.cookie
  {
    assert Names(t[j], j) && Names(t[k], k) && !SameUnique(t[j], t[k]);
  }

  /** The rows placed so far, in order. */
  ghost predicate Placed(scan: Scan, t: Table, done: set<Key>, items: seq<Item>)
  {
    && Ascending(items)
    && (forall i | 0 <= i < |items| ::
          items[i].key in done && Selects(scan, t, items[i].key) && items[i] == ItemAt(scan, t, items[i].key))
    && (forall k | k in done && Selects(scan, t, k) :: ItemAt(scan, t, k) in items)
  }

  method InsertItem(items: seq<Item>, x: Item) returns (r: seq<Item>)
    requires Ascending(items) && forall i | 0 <= i < |items| :: items[i].cursor != x.cursor
    ensures Ascending(r)
    ensures forall y :: y in r <==> y in items || y == x
  {
    var i := 0;
    while i < |items| && LexLess(items[i].cursor, x.cursor)
      invariant 0 <= i <= |items|
      invariant forall y | 0 <= y < i :: LexLess(items[y].cursor, x.cursor)
    {
      i := i + 1;
    }
    forall y | i <= y < |items| ensures LexLess(x.cursor, items[y].cursor) {
      LexLessTotal(x.cursor, items[i].cursor);
      if y > i {
        LexLessTransitive(x.cursor, items[i].cursor, items[y].cursor);
      }
    }
    r := items[..i] + [x] + items[i..];
    assert items == items[..i] + items[i..];
  }

  method PlaceKey(scan: Scan, t: Table, ghost done: set<Key>, items: seq<Item>, k: Key) returns (more: seq<Item>)
    requires WellKeyed(t) && ConstraintsHold(t) && k in t && k !in done && Placed(scan, t, done, items)
    ensures Placed(scan, t, done + {k}, more)
  {
    hide WellKeyed, ConstraintsHold, CursorOf, ItemBytes;
    if !Selects(scan, t, k) {
      return items;
    }
    var x := ItemAt(scan, t, k);
    forall i | 0 <= i < |items| ensures items[i].cursor != x.cursor {
      CursorsDiffer(scan, t, items[i].key, k);
    }
    more := InsertItem(items, x);
    PlacedNext(scan, t, done, items, k, more);
  }

  lemma PlacedNone(scan: Scan, t: Table)
    ensures Placed(scan, t, {}, [])
  {
  }

  lemma PlacedIsListed(scan: Scan, t: Table, items: seq<Item>)
    requires Placed(scan, t, t.Keys, items)
    ensures Listed(scan, t, items)
  {
    hide CursorOf, ItemBytes;
  }

  /** The ORDER BY of the scan queries. */
  method LoadOrdered(scan: Scan, t: Table) returns (items: seq<Item>)
    requires WellKeyed(t) && ConstraintsHold(t)
    ensures Listed(scan, t, items) && Scanned(scan, t, items)
  {
    hide WellKeyed, ConstraintsHold, Placed, Listed, Scanned;
    items := [];
    ghost var done: set<Key> := {};
    var rest := t.Keys;
    PlacedNone(scan, t);
    while rest != {}
      invariant rest <= t.Keys && done == t.Keys - rest
      invariant Placed(scan, t, done, items)
      decreases |rest|
    {
      var k :| k in rest;
      items := PlaceKey(scan, t, done, items, k);
      done := done + {k};
      rest := rest - {k};
    }
    assert done == t.Keys;
    PlacedIsListed(scan, t, items);
    ListedIsScanned(scan, t, items);
  }

  lemma PlacedNext(scan: Scan, t: Table, done: set<Key>, items: seq<Item>, k: Key, more: seq<Item>)
    requires Placed(scan, t, done, items) && Selects(scan, t, k) && Ascending(more)
    requires forall y :: y in more <==> y in items || y == ItemAt(scan, t, k)
    ensures Placed(scan, t, done + {k}, more)
  {
    forall i | 0 <= i < |more|
      ensures more[i].key in done + {k} && Selects(scan, t, more[i].key) && more[i] == ItemAt(scan, t, more[i].key)
    {
      assert more[i] in more;
    }
  }

  /** A scan followed to its end returns every selected row, in order, once. */
  method ScanTable(scan: Scan, t: Table, maxItems: nat, maxBytes: nat) returns (all: seq<Item>)
    requires WellKeyed(t) && ConstraintsHold(t) && maxItems > 0
    requires forall k | InScope(scan, t, k) :: ItemBytes(scan, k, t[k]) <= maxBytes
    ensures Scanned(scan, t, all)
  {
    hide CursorOf, InScope, ItemBytes, Scanned;
    var items := LoadOrdered(scan, t);
    forall i | 0 <= i < |items| ensures items[i].bytes <= maxBytes {
      SelectsInScope(scan, t, items[i].key);
    }
    all := ScanAll(items, maxItems, maxBytes);
  }

  // --------------------------------------------------------- page validation

  function FamilyOf(r: Record): nat
  {
    match r
    case FilesystemRecord(_) => 0
    case InodeRecord(_) => 1
    case ContentMetadataRecord(_) => 2
    case EntryRecord(_) => 3
    case OpenRecord(_) => 4
    case OpenPinRecord(_) => 5
    case OrphanRecord(_) => 6
    case LockRecord(_) => 7
    case XattrRecord(_) => 8
    case XattrStagingRecord(_) => 9
    case MutationRecord(_) => 10
    case WriterLeaseRecord(_) => 11
  }

  function ScannedFamily(scan: Scan): nat
  {
    if scan.Family? then scan.tag else ENTRY_TAG
  }

  /** `scan_cursor`: the cursor of a row, if it belongs to the scan. */
  function ScanCursor(scan: Scan, k: Key, r: Record): Option<seq<nat>>
  {
    match scan
    case Family(tag) =>
      if Rank(k)[0] == tag && FamilyOf(r) == tag && tag != FILESYSTEM_TAG && tag != ENTRY_TAG
      then Some(Rank(k)[1..]) else None
    case EntriesOf(p) => if k.EntryKey? && k.parent == p && r.EntryRecord? then Some([r.entry.cookie]) else None
    case PageOf(_) => None
  }

  /** A row under its key belongs to a scan exactly when it is in its scope. */
  lemma ScanCursorMeans(scan: Scan, k: Key, r: Record)
    requires !scan.PageOf? && Names(r, k)
    ensures ScanCursor(scan, k, r).Some? <==> InScope(scan, map[k := r], k)
    ensures ScannedFamily(scan) == if scan.EntriesOf? then 3 else scan.tag
  {
    var t: Table := map[k := r];
    NamesFamily(k, r);
    if scan.Family? {
      FamilyRows(scan.tag, t, k);
    } else if k.EntryKey? && k.parent == scan.parent {
      assert UnderDirectory(t, scan.parent, r.entry);
    }
  }

  predicate Belongs(scan: Scan, records: seq<(Key, Record)>)
  {
    forall i | 0 <= i < |records| :: ScanCursor(scan, records[i].0, records[i].1).Some?
  }

  function ItemsOf(scan: Scan, records: seq<(Key, Record)>): (r: seq<Item>)
    requires Belongs(scan, records)
    ensures |r| == |records|
    ensures forall i | 0 <= i < |r| ::
      r[i] == Item(records[i].0, records[i].1, ScanCursor(scan, records[i].0, records[i].1).value,
                   KeyBytes(records[i].0) + RecordBytes(records[i].1))
  {
    seq(|records|, i requires 0 <= i < |records| =>
      Item(records[i].0, records[i].1, ScanCursor(scan, records[i].0, records[i].1).value,
           KeyBytes(records[i].0) + RecordBytes(records[i].1)))
  }

  /** A page of the scan: its family, only rows that belong to it, in order, past the
      cursor and within the bounds. */
  ghost predicate ScanPageOk(scan: Scan, family: nat, records: seq<(Key, Record)>, resume: Option<seq<nat>>,
                             after: Option<seq<nat>>, snapshot: Revision, maxItems: nat, maxBytes: nat)
  {
    && family == ScannedFamily(scan) && Belongs(scan, records)
    && PageOk(ItemsOf(scan, records), resume, after, snapshot, maxItems, maxBytes)
  }

  /** `ScanPage::validate_against`. */
  method ValidateScanPage(scan: Scan, family: nat, records: seq<(Key, Record)>, resume: Option<seq<nat>>,
                          after: Option<seq<nat>>, snapshot: Revision, maxItems: nat, maxBytes: nat)
    returns (ok: bool)
    ensures ok <==> ScanPageOk(scan, family, records, resume, after, snapshot, maxItems, maxBytes)
  {
    hide PageOk, ScanCursor;
    if family != ScannedFamily(scan) {
      return false;
    }
    for i := 0 to |records|
      invariant Belongs(scan, records[..i])
    {
      if ScanCursor(scan, records[i].0, records[i].1).None? {
        return false;
      }
    }
    assert records[..|records|] == records;
    ok := ValidatePage(ItemsOf(scan, records), resume, after, snapshot, maxItems, maxBytes);
  }

  function Pairs(items: seq<Item>): (r: seq<(Key, Record)>)
    ensures |r| == |items| && forall i | 0 <= i < |r| :: r[i] == (items[i].key, items[i].record)
  {
    seq(|items|, i requires 0 <= i < |items| => (items[i].key, items[i].record))
  }

  lemma NamesFamily(k: Key, r: Record)
    requires Names(r, k)
    ensures Rank(k) != [] && Rank(k)[0] == FamilyOf(r)
  {
  }

  /** A listed row belongs to its scan, with the listed cursor and size. */
  lemma ListedBelongs(scan: Scan, t: Table, items: seq<Item>, x: Item)
    requires !scan.PageOf? && WellKeyed(t) && Listed(scan, t, items) && x in items
    ensures ScanCursor(scan, x.key, x.record) == Some(x.cursor)
    ensures x.bytes == KeyBytes(x.key) + RecordBytes(x.record)
  {
    var i :| 0 <= i < |items| && items[i] == x;
    assert Selects(scan, t, x.key) && Names(t[x.key], x.key);
    NamesFamily(x.key, x.record);
  }

  /** Items with the cursors and sizes of their rows are the items of their rows. */
  lemma PairsGiveBack(scan: Scan, items: seq<Item>)
    requires forall x | x in items ::
      ScanCursor(scan, x.key, x.record) == Some(x.cursor) && x.bytes == KeyBytes(x.key) + RecordBytes(x.record)
    ensures Belongs(scan, Pairs(items)) && ItemsOf(scan, Pairs(items)) == items
  {
    hide ScanCursor, KeyBytes, RecordBytes;
    forall i | 0 <= i < |items|
      ensures ScanCursor(scan, items[i].key, items[i].record) == Some(items[i].cursor)
      ensures items[i].bytes == KeyBytes(items[i].key) + RecordBytes(items[i].record)
    {
      assert items[i] in items;
    }
  }

  lemma PlannedFromRest(rest: seq<Item>, maxItems: nat, maxBytes: nat, x: Item)
    requires maxItems > 0 && Plan(rest, maxItems, maxBytes).Page? && x in Plan(rest, maxItems, maxBytes).items
    ensures x in rest
  {
    hide Fit;
  }

  /** Every page the store plans from its rows passes the portable validator. */
  lemma ScannedPageIsValid(scan: Scan, t: Table, items: seq<Item>, after: Option<seq<nat>>, snapshot: Revision,
                           maxItems: nat, maxBytes: nat)
    requires !scan.PageOf? && WellKeyed(t) && Listed(scan, t, items) && maxItems > 0
    requires forall x | x in items :: RevisionOf(x.record) <= snapshot
    requires Plan(After(items, after), maxItems, maxBytes).Page?
    ensures var p := Plan(After(items, after), maxItems, maxBytes);
            ScanPageOk(scan, ScannedFamily(scan), Pairs(p.items), p.resume, after, snapshot, maxItems, maxBytes)
  {
    hide WellKeyed, After, RevisionOf, ScanCursor, KeyBytes, RecordBytes, PageOk, Ascending, Plan, Beyond;
    var rest := After(items, after);
    var p := Plan(rest, maxItems, maxBytes);
    assert Ascending(items);
    hide Listed;
    AfterIsSuffix(items, after);
    forall x | x in rest ensures x in items && Beyond(after, x.cursor) {
      AfterHolds(items, after, x);
    }
    PlannedPageIsValid(rest, after, snapshot, maxItems, maxBytes);
    forall x | x in p.items
      ensures ScanCursor(scan, x.key, x.record) == Some(x.cursor)
      ensures x.bytes == KeyBytes(x.key) + RecordBytes(x.record)
    {
      PlannedFromRest(rest, maxItems, maxBytes, x);
      ListedBelongs(scan, t, items, x);
    }
    PairsGiveBack(scan, p.items);
  }

  // ---------------------------------------------------------- directory pages

  /** What the join adds about the child of an entry. */
  datatype Child = Child(kind: nat, qidPath: nat, revision: Revision)

  datatype DirectoryRead =
    | PageTooSmall(required: nat)
    | DirectoryPage(entries: seq<Entry>, children: seq<Child>, resume: Option<nat>)

  /** The summaries are those of the children the entries name. */
  ghost predicate Summarizes(t: Table, entries: seq<Entry>, children: seq<Child>)
  {
    && |children| == |entries|
    && forall x | 0 <= x < |entries| ::
         exists n :: InodeAt(t, entries[x].child) == Some(n)
                     && children[x] == Child(Kind(n.data), n.qidPath, n.revision)
  }

  function ChildAt(t: Table, i: InodeId): Child
    requires InodeAt(t, i).Some?
  {
    var n := InodeAt(t, i).value;
    Child(Kind(n.data), n.qidPath, n.revision)
  }

  /** What one directory page guarantees about the state it was read in. */
  ghost predicate PageFacts(t: Table, d: InodeId, after: nat, entries: seq<Entry>, resume: Option<nat>)
  {
    && (forall x, y | 0 <= x < y < |entries| :: entries[x].cookie < entries[y].cookie)
    && (forall x | 0 <= x < |entries| :: after < entries[x].cookie && UnderDirectory(t, d, entries[x]))
    && (forall e | UnderDirectory(t, d, e) && after < e.cookie && (resume.None? || e.cookie <= resume.value)
          :: e in entries)
    && (resume.Some? ==> entries != [] && resume.value == entries[|entries| - 1].cookie)
  }

  function EntryBytes(e: Entry): nat
  {
    192 + 2 * |e.name|
  }

  function PageBytes(entries: seq<Entry>): nat
  {
    if entries == [] then 0 else EntryBytes(entries[0]) + PageBytes(entries[1..])
  }

  /** The first entry of the directory past a cookie. */
  ghost predicate NextEntry(t: Table, d: InodeId, after: nat, e: Entry)
  {
    && UnderDirectory(t, d, e) && after < e.cookie
    && forall f | UnderDirectory(t, d, f) && after < f.cookie :: e.cookie <= f.cookie
  }

  /** The page is within its bounds and could not hold one entry more. */
  ghost predicate Fills(t: Table, d: InodeId, entries: seq<Entry>, resume: Option<nat>, maxItems: nat, maxBytes: nat)
  {
    && |entries| <= maxItems && PageBytes(entries) <= maxBytes
    && (resume.Some? ==> || |entries| == maxItems
                         || exists e :: NextEntry(t, d, resume.value, e)
                                        && PageBytes(entries) + EntryBytes(e) > maxBytes)
  }

  lemma {:induction false} AfterHolds(items: seq<Item>, cursor: Option<seq<nat>>, x: Item)
    requires Ascending(items) && x in items
    ensures x in After(items, cursor) <==> Beyond(cursor, x.cursor)
    decreases |items|
  {
    if Beyond(cursor, items[0].cursor) {
      if x != items[0] && cursor.Some? {
        var i :| 0 <= i < |items| && items[i] == x;
        LexLessTransitive(cursor.value, items[0].cursor, x.cursor);
      }
    } else {
      AfterIsSuffix(items[1..], cursor);
      if x == items[0] {
        if x in After(items[1..], cursor) {
          LexLessIrreflexive(x.cursor);
        }
      } else {
        AfterHolds(items[1..], cursor, x);
      }
    }
  }

  /** A prefix of an ordered list holds what does not lie past its last item. */
  lemma PrefixHolds(rest: seq<Item>, n: nat, x: Item)
    requires Ascending(rest) && 0 < n <= |rest| && x in rest
    ensures x in rest[..n] <==> !LexLess(rest[n - 1].cursor, x.cursor)
  {
    var i :| 0 <= i < |rest| && rest[i] == x;
    LexLessIrreflexive(x.cursor);
    if i < n {
      assert rest[..n][i] == x;
      if i < n - 1 {
        LexLessAsymmetric(rest[i].cursor, rest[n - 1].cursor);
      }
    }
  }

  /** A page of the ordered list holds exactly the items between the cursors. */
  lemma PageHolds(items: seq<Item>, after: Option<seq<nat>>, maxItems: nat, maxBytes: nat, x: Item)
    requires maxItems > 0 && Ascending(items) && x in items
    requires Plan(After(items, after), maxItems, maxBytes).Page?
    ensures var p := Plan(After(items, after), maxItems, maxBytes);
            x in p.items <==> Beyond(after, x.cursor) && (p.resume.None? || !LexLess(p.resume.value, x.cursor))
  {
    hide Fit, After, Ascending, LexLess;
    var rest := After(items, after);
    AfterIsSuffix(items, after);
    AfterHolds(items, after, x);
    var n := Fit(rest, maxItems, maxBytes);
    assert x in rest[..n] ==> x in rest;
    if n == |rest| {
      assert rest[..n] == rest;
    } else if x in rest {
      PrefixHolds(rest, n, x);
    }
  }

  function EntriesFrom(items: seq<Item>): (r: seq<Entry>)
    requires forall i | 0 <= i < |items| :: items[i].record.EntryRecord?
    ensures |r| == |items| && forall i | 0 <= i < |items| :: r[i] == items[i].record.entry
  {
    seq(|items|, i requires 0 <= i < |items| => items[i].record.entry)
  }

  /** An item of the listed directory is one of its entries, keyed by its cookie. */
  lemma ListedEntry(t: Table, d: InodeId, items: seq<Item>, x: Item)
    requires WellKeyed(t) && Listed(PageOf(d), t, items) && x in items
    ensures x.record.EntryRecord? && UnderDirectory(t, d, x.record.entry) && x.cursor == [x.record.entry.cookie]
    ensures x.bytes == 192 + 2 * |x.record.entry.name| && InodeAt(t, x.record.entry.child).Some?
  {
    var i :| 0 <= i < |items| && items[i] == x;
    assert Selects(PageOf(d), t, x.key) && Names(t[x.key], x.key);
  }

  /** Every entry of the directory is listed: the join loses none. */
  lemma EntryIsListed(t: Table, d: InodeId, items: seq<Item>, e: Entry)
    requires NoDangling(t) && Listed(PageOf(d), t, items) && UnderDirectory(t, d, e)
    ensures Selects(PageOf(d), t, EntryKey(d, e.name))
    ensures ItemAt(PageOf(d), t, EntryKey(d, e.name)) in items
    ensures ItemAt(PageOf(d), t, EntryKey(d, e.name)).record == EntryRecord(e)
    ensures ItemAt(PageOf(d), t, EntryKey(d, e.name)).cursor == [e.cookie]
  {
    assert DependsOn(t, EntryKey(d, e.name), e.child);
  }

  /** `read_directory_page`. */
  method ReadDirectoryPage(t: Table, d: InodeId, after: nat, maxItems: nat, maxBytes: nat)
    returns (r: DirectoryRead)
    requires WellKeyed(t) && ConstraintsHold(t) && NoDangling(t) && maxItems > 0
    ensures r.DirectoryPage? ==> PageFacts(t, d, after, r.entries, r.resume)
    ensures r.DirectoryPage? ==> Summarizes(t, r.entries, r.children)
    ensures r.DirectoryPage? ==> Fills(t, d, r.entries, r.resume, maxItems, maxBytes)
    ensures r.PageTooSmall? ==>
      r.required > maxBytes && exists e :: NextEntry(t, d, after, e) && r.required == EntryBytes(e)
  {
    hide WellKeyed, ConstraintsHold, NoDangling, Listed, PageFacts, Fills, After, NextEntry;
    var items := LoadOrdered(PageOf(d), t);
    ListedAscends(t, d, items);
    var cursor := Some([after]);
    var plan := ReadPage(items, cursor, maxItems, maxBytes);
    AfterIsSuffix(items, cursor);
    if plan.TooSmall? {
      TooSmallEntry(t, d, after, items, maxItems, maxBytes);
      return PageTooSmall(plan.required);
    }
    forall i | 0 <= i < |plan.items|
      ensures plan.items[i] in items && plan.items[i].record.EntryRecord?
        && plan.items[i].cursor == [plan.items[i].record.entry.cookie]
        && InodeAt(t, plan.items[i].record.entry.child).Some?
    {
      assert plan.items[i] in After(items, cursor);
      ListedEntry(t, d, items, plan.items[i]);
    }
    var entries := EntriesFrom(plan.items);
    var resume := if plan.resume.None? then None else Some(plan.resume.value[0]);
    PlannedFacts(t, d, after, items, maxItems, maxBytes, entries, resume);
    PlannedFills(t, d, after, items, maxItems, maxBytes, entries, resume);
    var children := seq(|entries|, i requires 0 <= i < |entries| => ChildAt(t, entries[i].child));
    return DirectoryPage(entries, children, resume);
  }

  lemma ListedAscends(t: Table, d: InodeId, items: seq<Item>)
    requires Listed(PageOf(d), t, items)
    ensures Ascending(items)
  {
  }

  /** The item at `n` past the cursor is the first entry past the one before it. */
  lemma RestIsNext(t: Table, d: InodeId, after: nat, items: seq<Item>, n: nat, bound: nat)
    requires WellKeyed(t) && NoDangling(t) && Listed(PageOf(d), t, items)
    requires var rest := After(items, Some([after]));
             n < |rest| && if n == 0 then bound == after else rest[n - 1].cursor == [bound]
    ensures var x := After(items, Some([after]))[n];
            x.record.EntryRecord? && NextEntry(t, d, bound, x.record.entry) && x.bytes == EntryBytes(x.record.entry)
  {
    hide WellKeyed, NoDangling, Listed, After;
    ListedAscends(t, d, items);
    var cursor := Some([after]);
    var rest := After(items, cursor);
    AfterIsSuffix(items, cursor);
    assert rest[n] in rest && rest[n] in items;
    ListedEntry(t, d, items, rest[n]);
    var e := rest[n].record.entry;
    RestPast(items, after, n, bound);
    PlainCookieOrder(bound, e.cookie);
    forall f | UnderDirectory(t, d, f) && bound < f.cookie ensures e.cookie <= f.cookie {
      EntryIsListed(t, d, items, f);
      var x := ItemAt(PageOf(d), t, EntryKey(d, f.name));
      PlainCookieOrder(bound, f.cookie);
      PlainCookieOrder(f.cookie, e.cookie);
      RestOrder(items, after, n, bound, x);
    }
  }

  lemma RestPast(items: seq<Item>, after: nat, n: nat, bound: nat)
    requires Ascending(items)
    requires var rest := After(items, Some([after]));
             n < |rest| && if n == 0 then bound == after else rest[n - 1].cursor == [bound]
    ensures LexLess([bound], After(items, Some([after]))[n].cursor)
  {
    hide After;
    var cursor := Some([after]);
    AfterIsSuffix(items, cursor);
    var rest := After(items, cursor);
    if n == 0 {
      assert rest[0] in rest && rest[0] in items;
      AfterHolds(items, cursor, rest[0]);
    }
  }

  /** An item past the bound is not before the item at `n`. */
  lemma RestOrder(items: seq<Item>, after: nat, n: nat, bound: nat, x: Item)
    requires Ascending(items) && x in items && LexLess([bound], x.cursor)
    requires var rest := After(items, Some([after]));
             n < |rest| && if n == 0 then bound == after else rest[n - 1].cursor == [bound]
    ensures !LexLess(x.cursor, After(items, Some([after]))[n].cursor)
  {
    hide After;
    var cursor := Some([after]);
    AfterIsSuffix(items, cursor);
    var rest := After(items, cursor);
    assert Beyond(cursor, x.cursor) by {
      if n > 0 {
        assert rest[n - 1] in rest && rest[n - 1] in items;
        AfterHolds(items, cursor, rest[n - 1]);
        LexLessTransitive([after], [bound], x.cursor);
      }
    }
    AfterHolds(items, cursor, x);
    var i :| 0 <= i < |rest| && rest[i] == x;
    LexLessIrreflexive(x.cursor);
    if i < n {
      if i < n - 1 {
        LexLessTransitive(x.cursor, [bound], x.cursor);
      }
    } else if i > n {
      LexLessAsymmetric(rest[n].cursor, x.cursor);
    }
  }

  lemma TooSmallEntry(t: Table, d: InodeId, after: nat, items: seq<Item>, maxItems: nat, maxBytes: nat)
    requires WellKeyed(t) && NoDangling(t) && Listed(PageOf(d), t, items) && maxItems > 0
    requires Plan(After(items, Some([after])), maxItems, maxBytes).TooSmall?
    ensures var required := Plan(After(items, Some([after])), maxItems, maxBytes).required;
            required > maxBytes && exists e :: NextEntry(t, d, after, e) && required == EntryBytes(e)
  {
    hide WellKeyed, NoDangling, Listed, After, NextEntry;
    RestIsNext(t, d, after, items, 0, after);
  }

  /** `entries` and `resume` are what the planned page says. */
  ghost predicate Spelled(items: seq<Item>, p: ScanPlan, entries: seq<Entry>, resume: Option<nat>)
  {
    && p.Page? && |entries| == |p.items|
    && (forall i | 0 <= i < |p.items| :: p.items[i] in items && p.items[i].record == EntryRecord(entries[i])
          && p.items[i].cursor == [entries[i].cookie])
    && (p.resume.Some? ==> entries != [] && p.resume.value == [entries[|entries| - 1].cookie]
                           && resume == Some(entries[|entries| - 1].cookie))
    && (p.resume.None? ==> resume == None)
  }

  lemma SpelledOrder(items: seq<Item>, p: ScanPlan, entries: seq<Entry>, resume: Option<nat>, x: nat, y: nat)
    requires Spelled(items, p, entries, resume) && Ascending(p.items) && x < y < |entries|
    ensures entries[x].cookie < entries[y].cookie
  {
    assert LexLess(p.items[x].cursor, p.items[y].cursor);
    PlainCookieOrder(entries[x].cookie, entries[y].cookie);
  }

  lemma SpelledEntry(t: Table, d: InodeId, after: nat, items: seq<Item>, maxItems: nat, maxBytes: nat,
                     entries: seq<Entry>, resume: Option<nat>, x: nat)
    requires WellKeyed(t) && Listed(PageOf(d), t, items) && maxItems > 0 && x < |entries|
    requires Spelled(items, Plan(After(items, Some([after])), maxItems, maxBytes), entries, resume)
    ensures after < entries[x].cookie && UnderDirectory(t, d, entries[x])
  {
    hide WellKeyed, Listed, After, Fit;
    ListedAscends(t, d, items);
    var p := Plan(After(items, Some([after])), maxItems, maxBytes);
    ListedEntry(t, d, items, p.items[x]);
    assert p.items[x] in p.items;
    PageHolds(items, Some([after]), maxItems, maxBytes, p.items[x]);
    PlainCookieOrder(after, entries[x].cookie);
  }

  lemma PlannedAscends(items: seq<Item>, cursor: Option<seq<nat>>, maxItems: nat, maxBytes: nat)
    requires Ascending(items) && maxItems > 0 && Plan(After(items, cursor), maxItems, maxBytes).Page?
    ensures Ascending(Plan(After(items, cursor), maxItems, maxBytes).items)
  {
    hide After, Fit;
    AfterIsSuffix(items, cursor);
  }

  /** The planned page has the page facts. */
  lemma PlannedFacts(t: Table, d: InodeId, after: nat, items: seq<Item>, maxItems: nat, maxBytes: nat,
                     entries: seq<Entry>, resume: Option<nat>)
    requires WellKeyed(t) && NoDangling(t) && Listed(PageOf(d), t, items) && maxItems > 0
    requires Spelled(items, Plan(After(items, Some([after])), maxItems, maxBytes), entries, resume)
    ensures PageFacts(t, d, after, entries, resume)
  {
    hide WellKeyed, NoDangling, Listed, After, Fit, UnderDirectory, Ascending;
    ListedAscends(t, d, items);
    var p := Plan(After(items, Some([after])), maxItems, maxBytes);
    PlannedAscends(items, Some([after]), maxItems, maxBytes);
    forall x, y | 0 <= x < y < |entries| ensures entries[x].cookie < entries[y].cookie {
      SpelledOrder(items, p, entries, resume, x, y);
    }
    forall x | 0 <= x < |entries| ensures after < entries[x].cookie && UnderDirectory(t, d, entries[x]) {
      SpelledEntry(t, d, after, items, maxItems, maxBytes, entries, resume, x);
    }
    forall e | UnderDirectory(t, d, e) && after < e.cookie && (resume.None? || e.cookie <= resume.value)
      ensures e in entries
    {
      CoveredEntry(t, d, after, items, maxItems, maxBytes, entries, resume, e);
    }
  }

  lemma {:induction false} SpelledBytes(items: seq<Item>, entries: seq<Entry>)
    requires |entries| == |items|
    requires forall i | 0 <= i < |items| :: items[i].bytes == EntryBytes(entries[i])
    ensures PageBytes(entries) == Paging.Bytes(items)
    decreases |items|
  {
    if items != [] {
      SpelledBytes(items[1..], entries[1..]);
    }
  }

  /** The planned page is as long as its bounds allow. */
  lemma PlannedFills(t: Table, d: InodeId, after: nat, items: seq<Item>, maxItems: nat, maxBytes: nat,
                     entries: seq<Entry>, resume: Option<nat>)
    requires WellKeyed(t) && NoDangling(t) && Listed(PageOf(d), t, items) && maxItems > 0
    requires Spelled(items, Plan(After(items, Some([after])), maxItems, maxBytes), entries, resume)
    ensures Fills(t, d, entries, resume, maxItems, maxBytes)
  {
    hide WellKeyed, NoDangling, Listed, After, Fit, NextEntry, PageBytes, Paging.Bytes;
    var rest := After(items, Some([after]));
    var n := Fit(rest, maxItems, maxBytes);
    FitIsLongest(rest, maxItems, maxBytes, n);
    forall i | 0 <= i < n ensures rest[..n][i].bytes == EntryBytes(entries[i]) {
      ListedEntry(t, d, items, rest[..n][i]);
    }
    SpelledBytes(rest[..n], entries);
    if n < |rest| {
      FitIsLongest(rest, maxItems, maxBytes, n + 1);
      assert rest[..n + 1] == rest[..n] + [rest[n]];
      BytesConcat(rest[..n], [rest[n]]);
      OneItem(rest[n]);
      RestIsNext(t, d, after, items, n, resume.value);
    }
  }

  lemma OneItem(x: Item)
    ensures Paging.Bytes([x]) == x.bytes
  {
    assert [x][1..] == [];
  }

  lemma CoveredEntry(t: Table, d: InodeId, after: nat, items: seq<Item>, maxItems: nat, maxBytes: nat,
                     entries: seq<Entry>, resume: Option<nat>, e: Entry)
    requires NoDangling(t) && Listed(PageOf(d), t, items) && maxItems > 0
    requires Spelled(items, Plan(After(items, Some([after])), maxItems, maxBytes), entries, resume)
    requires UnderDirectory(t, d, e) && after < e.cookie && (resume.None? || e.cookie <= resume.value)
    ensures e in entries
  {
    hide NoDangling, Listed, After, Fit;
    ListedAscends(t, d, items);
    var p := Plan(After(items, Some([after])), maxItems, maxBytes);
    EntryIsListed(t, d, items, e);
    var x := ItemAt(PageOf(d), t, EntryKey(d, e.name));
    PlainCookieOrder(after, e.cookie);
    if p.resume.Some? {
      PlainCookieOrder(resume.value, e.cookie);
    }
    PageHolds(items, Some([after]), maxItems, maxBytes, x);
    var i :| 0 <= i < |p.items| && p.items[i] == x;
    assert entries[i] == e;
  }

  // -------------------------------------------------------------- enumeration

  /** One page of an enumeration and the state it was read in. */
  datatype Visit = Visit(table: Table, after: nat, entries: seq<Entry>, resume: Option<nat>)

  /** A completed enumeration: it starts at cookie zero, every visit resumes where
      the one before stopped, and the last one reports no more. */
  ghost predicate Enumerated(d: InodeId, visits: seq<Visit>)
  {
    && visits != [] && visits[0].after == 0 && visits[|visits| - 1].resume.None?
    && (forall i | 0 <= i < |visits|
          :: PageFacts(visits[i].table, d, visits[i].after, visits[i].entries, visits[i].resume))
    && (forall i, j | 0 <= i < j < |visits| && j == i + 1 :: visits[i].resume == Some(visits[j].after))
  }

  lemma NextVisit(d: InodeId, visits: seq<Visit>, i: nat)
    requires Enumerated(d, visits) && i + 1 < |visits|
    ensures visits[i].resume == Some(visits[i + 1].after) && visits[i].after < visits[i + 1].after
    ensures forall e | e in visits[i].entries :: e.cookie <= visits[i + 1].after
  {
    var v := visits[i];
    assert v.resume == Some(visits[i + 1].after);
    assert PageFacts(v.table, d, v.after, v.entries, v.resume);
    var last := v.entries[|v.entries| - 1];
    assert last.cookie == visits[i + 1].after;
  }

  lemma {:induction false} CursorsRise(d: InodeId, visits: seq<Visit>, i: nat, j: nat)
    requires Enumerated(d, visits) && i <= j < |visits|
    ensures visits[i].after <= visits[j].after
    decreases j
  {
    if i < j {
      CursorsRise(d, visits, i, j - 1);
      NextVisit(d, visits, j - 1);
    }
  }

  /** Cookies strictly increase through the whole enumeration. */
  lemma CookiesIncrease(d: InodeId, visits: seq<Visit>, i: nat, x: nat, j: nat, y: nat)
    requires Enumerated(d, visits) && i < |visits| && j < |visits|
    requires x < |visits[i].entries| && y < |visits[j].entries| && (i < j || (i == j && x < y))
    ensures visits[i].entries[x].cookie < visits[j].entries[y].cookie
  {
    assert PageFacts(visits[j].table, d, visits[j].after, visits[j].entries, visits[j].resume);
    if i < j {
      CursorsRise(d, visits, i + 1, j);
      NextVisit(d, visits, i);
      assert visits[i].entries[x] in visits[i].entries;
    }
  }

  lemma {:induction false} VisitFor(d: InodeId, visits: seq<Visit>, cookie: nat, n: nat) returns (i: nat)
    requires Enumerated(d, visits) && n < |visits| && visits[n].after < cookie
    ensures i < |visits| && visits[i].after < cookie
    ensures visits[i].resume.None? || cookie <= visits[i].resume.value
    decreases |visits| - n
  {
    if n + 1 < |visits| {
      NextVisit(d, visits, n);
      if visits[n + 1].after < cookie {
        i := VisitFor(d, visits, cookie, n + 1);
      } else {
        i := n;
      }
    } else {
      i := n;
    }
  }

  /** The link stands in the directory, under whatever name. */
  ghost predicate Linked(t: Table, d: InodeId, cookie: nat, child: InodeId)
  {
    exists e :: UnderDirectory(t, d, e) && e.cookie == cookie && e.child == child
  }

  /** A link present in every state a page was read in is emitted exactly once,
      whatever happened in between. */
  lemma EmittedExactlyOnce(d: InodeId, visits: seq<Visit>, cookie: nat, child: InodeId) returns (i: nat, x: nat)
    requires Enumerated(d, visits) && cookie > 0
    requires forall v | v in visits :: Linked(v.table, d, cookie, child)
    ensures i < |visits| && x < |visits[i].entries|
    ensures visits[i].entries[x].cookie == cookie && visits[i].entries[x].child == child
    ensures forall j: nat, y: nat | j < |visits| && y < |visits[j].entries| && visits[j].entries[y].cookie == cookie
              :: j == i && y == x
  {
    i := VisitFor(d, visits, cookie, 0);
    assert PageFacts(visits[i].table, d, visits[i].after, visits[i].entries, visits[i].resume);
    assert visits[i] in visits;
    var e :| UnderDirectory(visits[i].table, d, e) && e.cookie == cookie && e.child == child;
    assert e in visits[i].entries;
    x :| 0 <= x < |visits[i].entries| && visits[i].entries[x] == e;
    forall j: nat, y: nat | j < |visits| && y < |visits[j].entries| && visits[j].entries[y].cookie == cookie
      ensures j == i && y == x
    {
      SamePlace(d, visits, i, x, j, y);
    }
  }

  lemma SamePlace(d: InodeId, visits: seq<Visit>, i: nat, x: nat, j: nat, y: nat)
    requires Enumerated(d, visits) && i < |visits| && j < |visits|
    requires x < |visits[i].entries| && y < |visits[j].entries|
    requires visits[i].entries[x].cookie == visits[j].entries[y].cookie
    ensures i == j && x == y
  {
    hide Enumerated;
    if j < i || (j == i && y < x) {
      CookiesIncrease(d, visits, j, y, i, x);
    } else if i < j || (i == j && x < y) {
      CookiesIncrease(d, visits, i, x, j, y);
    }
  }
}
