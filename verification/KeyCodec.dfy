/** Persisted form of record keys in the change log
    (crates/w9pt-fs-state-postgres/src/key_codec.rs). */
module KeyCodec {
  import opened Values
  import opened Records
  import opened Encoding

  /** One row of key columns; an absent component is NULL. */
  datatype SqlKey = SqlKey(tag: nat, a: Bytes, b: Bytes)

  datatype KeyColumns = KeyColumns(tag: nat, a: Option<Bytes>, b: Option<Bytes>)

  datatype NameLimits = NameLimits(entry: nat, xattr: nat)

  function Id(n: nat): (r: Bytes)
    ensures |r| == ID_WIDTH
  {
    Be(n, ID_WIDTH)
  }

  function Encode(k: Key): SqlKey
  {
    match k
    case FilesystemKey => SqlKey(1, [], [])
    case InodeKey(i) => SqlKey(2, Id(i), [])
    case EntryKey(p, n) => SqlKey(3, Id(p), n)
    case OpenKey(o) => SqlKey(4, Id(o), [])
    case OpenPinKey(i, o) => SqlKey(5, Id(i), Id(o))
    case OrphanKey(i) => SqlKey(6, Id(i), [])
    case LockKey(i, l) => SqlKey(7, Id(i), Id(l))
    case XattrKey(i, n) => SqlKey(8, Id(i), n)
    case XattrStagingKey(s) => SqlKey(9, Id(s), [])
    case MutationKey(m) => SqlKey(10, Id(m), [])
    case WriterLeaseKey(s) => SqlKey(11, Id(s), [])
    case ContentMetadataKey(f) => SqlKey(12, Id(f), [])
  }

  const NUL: Byte := 0
  const SLASH: Byte := 47
  const DOT: Byte := 46

  predicate EntryNameOk(name: Bytes, limits: NameLimits)
  {
    name != [] && NUL !in name && SLASH !in name && name != [DOT] && name != [DOT, DOT]
    && |name| <= limits.entry
  }

  predicate XattrNameOk(name: Bytes, limits: NameLimits)
  {
    name != [] && NUL !in name && |name| <= limits.xattr
  }

  /** Names the codec accepts: no empty one, no zero byte, for entries no slash and neither
      one nor two dots, within the limit. */
  lemma NamesMean(name: Bytes, limits: NameLimits)
    ensures EntryNameOk(name, limits) <==>
      && 0 < |name| <= limits.entry && (forall b | b in name :: b != 0 && b != 47)
      && !(|name| <= 2 && forall b | b in name :: b == 46)
    ensures XattrNameOk(name, limits) <==> 0 < |name| <= limits.xattr && forall b | b in name :: b != 0
  {
    if |name| == 1 {
      assert name == [name[0]] && name[0] in name;
    } else if |name| == 2 {
      assert name == [name[0], name[1]] && name[0] in name && name[1] in name;
    }
  }

  predicate Fixed(component: Bytes)
  {
    |component| == ID_WIDTH
  }

  /** `SqlRecordKey::decode`; `None` is any codec error. */
  function Decode(row: SqlKey, limits: NameLimits): Option<Key>
  {
    match row.tag
    case 1 => if row.a == [] && row.b == [] then Some(FilesystemKey) else None
    case 3 =>
      if Fixed(row.a) && EntryNameOk(row.b, limits) then Some(EntryKey(FromBe(row.a), row.b)) else None
    case 5 =>
      if Fixed(row.a) && Fixed(row.b) then Some(OpenPinKey(FromBe(row.a), FromBe(row.b))) else None
    case 7 =>
      if Fixed(row.a) && Fixed(row.b) then Some(LockKey(FromBe(row.a), FromBe(row.b))) else None
    case 8 =>
      if Fixed(row.a) && XattrNameOk(row.b, limits) then Some(XattrKey(FromBe(row.a), row.b)) else None
    case _ => if row.b == [] && Fixed(row.a) then DecodeSingle(row.tag, FromBe(row.a)) else None
  }

  function DecodeSingle(tag: nat, id: nat): Option<Key>
  {
    match tag
    case 2 => Some(InodeKey(id))
    case 4 => Some(OpenKey(id))
    case 6 => Some(OrphanKey(id))
    case 9 => Some(XattrStagingKey(id))
    case 10 => Some(MutationKey(id))
    case 11 => Some(WriterLeaseKey(id))
    case 12 => Some(ContentMetadataKey(id))
    case _ => None
  }

  /** Identities fit their width and names fit their bounds. */
  predicate InBounds(k: Key, limits: NameLimits)
  {
    match k
    case FilesystemKey => true
    case InodeKey(i) => i < Pow256(ID_WIDTH)
    case EntryKey(p, n) => p < Pow256(ID_WIDTH) && EntryNameOk(n, limits)
    case OpenKey(o) => o < Pow256(ID_WIDTH)
    case OpenPinKey(i, o) => i < Pow256(ID_WIDTH) && o < Pow256(ID_WIDTH)
    case OrphanKey(i) => i < Pow256(ID_WIDTH)
    case LockKey(i, l) => i < Pow256(ID_WIDTH) && l < Pow256(ID_WIDTH)
    case XattrKey(i, n) => i < Pow256(ID_WIDTH) && XattrNameOk(n, limits)
    case XattrStagingKey(s) => s < Pow256(ID_WIDTH)
    case MutationKey(m) => m < Pow256(ID_WIDTH)
    case WriterLeaseKey(s) => s < Pow256(ID_WIDTH)
    case ContentMetadataKey(f) => f < Pow256(ID_WIDTH)
  }

  function First(k: Key): nat
  {
    match k
    case FilesystemKey => 0
    case InodeKey(i) => i
    case EntryKey(p, _) => p
    case OpenKey(o) => o
    case OpenPinKey(i, _) => i
    case OrphanKey(i) => i
    case LockKey(i, _) => i
    case XattrKey(i, _) => i
    case XattrStagingKey(s) => s
    case MutationKey(m) => m
    case WriterLeaseKey(s) => s
    case ContentMetadataKey(f) => f
  }

  /** Every in-bounds key decodes back from its row. */
  lemma KeyRoundTrip(k: Key, limits: NameLimits)
    requires InBounds(k, limits)
    ensures Decode(Encode(k), limits) == Some(k)
  {
    hide Be, FromBe, Pow256, EntryNameOk, XattrNameOk;
    if k != FilesystemKey {
      DecodeEncoded(First(k), ID_WIDTH);
      if k.OpenPinKey? {
        DecodeEncoded(k.open, ID_WIDTH);
      } else if k.LockKey? {
        DecodeEncoded(k.lock, ID_WIDTH);
      }
    }
  }

  /** Every accepted row is the encoding of the in-bounds key it decodes to. */
  lemma RowRoundTrip(row: SqlKey, limits: NameLimits)
    requires Decode(row, limits).Some?
    ensures InBounds(Decode(row, limits).value, limits) && Encode(Decode(row, limits).value) == row
  {
    hide Be, FromBe, Pow256, Id, EntryNameOk, XattrNameOk;
    if Fixed(row.a) {
      IdOf(row.a);
    }
    if Fixed(row.b) {
      IdOf(row.b);
    }
  }

  lemma IdOf(b: Bytes)
    requires Fixed(b)
    ensures FromBe(b) < Pow256(ID_WIDTH) && Id(FromBe(b)) == b
  {
    EncodeDecoded(b);
  }

  // ---------------------------------------------------------------- NULL columns

  function ToColumn(b: Bytes): Option<Bytes>
  {
    if b == [] then None else Some(b)
  }

  function FromColumn(c: Option<Bytes>): Bytes
  {
    if c.None? then [] else c.value
  }

  function Store(k: Key): KeyColumns
  {
    KeyColumns(Encode(k).tag, ToColumn(Encode(k).a), ToColumn(Encode(k).b))
  }

  function Load(row: KeyColumns, limits: NameLimits): Option<Key>
  {
    Decode(SqlKey(row.tag, FromColumn(row.a), FromColumn(row.b)), limits)
  }

  /** Keys survive the columns, and an accepted row of columns is stored again
      unchanged exactly when it holds no empty value in place of a NULL. */
  lemma ColumnsRoundTrip(k: Key, row: KeyColumns, limits: NameLimits)
    ensures InBounds(k, limits) ==> Load(Store(k), limits) == Some(k)
    ensures Load(row, limits).Some? ==>
      (Store(Load(row, limits).value) == row <==> row.a != Some([]) && row.b != Some([]))
  {
    if InBounds(k, limits) {
      KeyRoundTrip(k, limits);
    }
    if Load(row, limits).Some? {
      RowRoundTrip(SqlKey(row.tag, FromColumn(row.a), FromColumn(row.b)), limits);
    }
  }
}
