/**
 A writer for the legacy record format, as a reference for its reader: every record the format can
 hold is written in bytes that decode back to it, whatever follows them. The blob-id part of the
 writer is the source's own.
 */
module LegacyRoundTrip {
  import opened Basics
  import opened Wire
  import opened LegacyObject
  import opened LegacyFormat
  import Utc = UtcDate

  function StringBytes(text: seq<byte>): seq<byte> {
    LebBytes(|text|) + text
  }

  function ClassBytes(c: BlobClass): seq<byte> {
    match c
    case Reserved(accountId, expires) => LebBytes(accountId) + LebBytes(expires)
    case Linked(accountId, collection, documentId) => LebBytes(accountId) + ([collection] + LebBytes(documentId))
  }

  function SectionBytes(s: Option<BlobSection>): seq<byte> {
    match s
    case None => []
    case Some(section) => LebBytes(section.offset) + LebBytes(section.size)
  }

  function Marker(b: BlobId): nat {
    (if b.section.Some? then b.section.value.encoding + 1 else 0) + (if b.class_.Linked? then 16 else 32)
  }

  /** What a blob id can hold: the encoding shares a byte with the class. */
  predicate StorableBlobId(b: BlobId) {
    && |b.hash| == 32
    && b.class_.accountId < Limit(W32)
    && (b.class_.Linked? ==> b.class_.documentId < Limit(W32))
    && (b.class_.Reserved? ==> b.class_.expires < Limit(W64))
    && (b.section.Some? ==> var s := b.section.value;
                            s.encoding <= 14 && s.offset < Limit(W64) && s.size < Limit(W64))
  }

  function BlobIdBytes(b: BlobId): seq<byte> {
    [Marker(b) % 256] + (b.hash + (ClassBytes(b.class_) + SectionBytes(b.section)))
  }

  function KeywordBytes(k: Keyword): seq<byte> {
    match k
    case System(number) => LebBytes(number)
    case Other(name) => LebBytes(12 + |name|) + name
  }

  predicate StorableKeyword(utf8: seq<byte> -> bool, k: Keyword) {
    match k
    case System(number) => number < 12
    case Other(name) => utf8(name) && 12 + |name| < Limit(W64)
  }

  function PropertyBytes(p: Property): seq<byte> {
    match p
    case Known(code) => [code]
    case Custom(name) => [97] + StringBytes(name)
  }

  predicate StorableText(utf8: seq<byte> -> bool, text: seq<byte>) {
    utf8(text) && |text| < Limit(W64)
  }

  predicate StorableProperty(utf8: seq<byte> -> bool, p: Property) {
    match p
    case Known(code) => code <= 103 && code != 90 && code != 97
    case Custom(name) => StorableText(utf8, name)
  }

  function BigEndianBytes(n: nat, width: nat): (s: seq<byte>)
    ensures |s| == width
  {
    if width == 0 then [] else BigEndianBytes(n / 256, width - 1) + [n % 256]
  }

  function GrantBytes(g: AclGrant): seq<byte> {
    LebBytes(g.accountId) + BigEndianBytes(g.grants, 8)
  }

  predicate StorableGrants(gs: seq<AclGrant>) {
    forall i :: 0 <= i < |gs| ==> gs[i].accountId < Limit(W32) && gs[i].grants < Limit(W64)
  }

  function GrantsBytes(gs: seq<AclGrant>): seq<byte> {
    if gs == [] then [] else GrantBytes(gs[0]) + GrantsBytes(gs[1..])
  }

  /** The tag of a value. */
  function Tag(v: Value): byte {
    match v
    case Text(_) => 0
    case UnsignedInt(_) => 1
    case Bool(flag) => if flag then 2 else 3
    case Id(_) => 4
    case Date(_) => 5
    case BlobRef(_) => 6
    case KeywordValue(_) => 8
    case List(_) => 9
    case Object(_) => 10
    case Acl(_) => 11
    case Blob(_) => 7
    case Null => 12
  }

  /** What the format can hold: lengths and numbers fit their words, dates survive their timestamp. */
  predicate Storable(utf8: seq<byte> -> bool, v: Value) {
    match v
    case Text(text) => StorableText(utf8, text)
    case UnsignedInt(number) => number < Limit(W64)
    case Bool(_) => true
    case Id(id) => id < Limit(W64)
    case Date(date) => Utc.ValidUtc(date) && (date.date.year >= 1970 || Utc.SecondsOfDay(date) == 0)
    case BlobRef(blobId) => StorableBlobId(blobId)
    case KeywordValue(keyword) => StorableKeyword(utf8, keyword)
    case List(items) => |items| < Limit(W64) && StorableItems(utf8, items)
    case Object(properties) => |properties| < Limit(W64) && StorableEntries(utf8, properties)
    case Acl(acls) => |acls| < Limit(W64) && StorableGrants(acls)
    case Blob(blob) => |blob| < Limit(W64)
    case Null => true
  }

  predicate StorableItems(utf8: seq<byte> -> bool, items: seq<Value>) {
    forall i :: 0 <= i < |items| ==> Storable(utf8, items[i])
  }

  predicate StorableEntry(utf8: seq<byte> -> bool, e: Entry) {
    StorableProperty(utf8, e.key) && Storable(utf8, e.value)
  }

  predicate StorableEntries(utf8: seq<byte> -> bool, entries: seq<Entry>) {
    forall i :: 0 <= i < |entries| ==> StorableEntry(utf8, entries[i])
  }

  function ValueBytes(v: Value): seq<byte>
    decreases v, 1
  {
    [Tag(v)] + BodyBytes(v)
  }

  function BodyBytes(v: Value): seq<byte>
    decreases v, 0
  {
    match v
    case Text(text) => StringBytes(text)
    case UnsignedInt(number) => LebBytes(number)
    case Bool(_) => []
    case Id(id) => LebBytes(id)
    case Date(date) => LebBytes(Utc.Timestamp(date) % Limit(W64))
    case BlobRef(blobId) => BlobIdBytes(blobId)
    case KeywordValue(keyword) => KeywordBytes(keyword)
    case List(items) => LebBytes(|items|) + ItemsBytes(items)
    case Object(properties) => LebBytes(|properties|) + EntriesBytes(properties)
    case Acl(acls) => LebBytes(|acls|) + GrantsBytes(acls)
    case Blob(blob) => StringBytes(blob)
    case Null => []
  }

  function ItemsBytes(items: seq<Value>): seq<byte>
    decreases items, 2
  {
    if items == [] then [] else ValueBytes(items[0]) + ItemsBytes(items[1..])
  }

  function EntryBytes(e: Entry): seq<byte>
    decreases e, 2
  {
    PropertyBytes(e.key) + ValueBytes(e.value)
  }

  function EntriesBytes(entries: seq<Entry>): seq<byte>
    decreases entries, 2
  {
    if entries == [] then [] else EntryBytes(entries[0]) + EntriesBytes(entries[1..])
  }

  /** A stored record: its number of properties, then each property and its value. */
  function ObjectBytes(entries: seq<Entry>): seq<byte> {
    LebBytes(|entries|) + EntriesBytes(entries)
  }

  lemma SeptetsParts(c: seq<byte>)
    requires c != []
    ensures Septets(c) / 128 == Septets(c[1..]) && Septets(c) % 128 == c[0] % 128
  {
  }

  /** A number is written in septets that end where they should, and in no fewer could it be. */
  lemma {:induction false} NumberIsShortest(v: nat, c: seq<byte>)
    requires Terminated(c) && Septets(c) == v
    ensures Terminated(LebBytes(v)) && Septets(LebBytes(v)) == v && |LebBytes(v)| <= |c|
    decreases |c|
  {
    hide Septets;
    SeptetsParts(c);
    SeptetsEnd(c[1..]);
    SeptetsEnd(LebBytes(v)[1..]);
    SeptetsParts(LebBytes(v));
    if v >= 128 {
      NumberIsShortest(v / 128, c[1..]);
      assert LebBytes(v)[1..] == LebBytes(v / 128);
    }
  }

  lemma SeptetsEnd(c: seq<byte>)
    ensures c == [] ==> Septets(c) == 0
  {
  }

  // ---- Reading back what was written, without nesting -------------------------------------------

  lemma StringRoundTrip(text: seq<byte>, t: seq<byte>)
    requires |text| < Limit(W64)
    ensures Bytes(StringBytes(text) + t) == Parsed(text, t)
  {
    AppendAssoc(LebBytes(|text|), text, t);
    LebRoundTrip(W64, |text|, text + t);
    TakeOf(text, t);
    hide Leb, LebBytes, Take;
  }

  lemma ClassRoundTrip(marker: byte, c: BlobClass, t: seq<byte>)
    requires c.accountId < Limit(W32) && (marker / 16 % 2 == 1 <==> c.Linked?)
    requires if c.Linked? then c.documentId < Limit(W32) else c.expires < Limit(W64)
    ensures var account := Leb(W32, ClassBytes(c) + t);
            account.Parsed? && account.value == c.accountId
            && BlobClassFrom(marker, account.value, account.rest) == Parsed(c, t)
  {
    hide Leb, LebBytes, NextByte;
    match c
    case Reserved(accountId, expires) =>
      AppendAssoc(LebBytes(accountId), LebBytes(expires), t);
      LebRoundTrip(W32, accountId, LebBytes(expires) + t);
      LebRoundTrip(W64, expires, t);
    case Linked(accountId, collection, documentId) =>
      var tail := LebBytes(documentId) + t;
      AppendAssoc([collection], LebBytes(documentId), t);
      AppendAssoc(LebBytes(accountId), [collection] + LebBytes(documentId), t);
      LebRoundTrip(W32, accountId, [collection] + tail);
      NextByteOf(collection, tail);
      LebRoundTrip(W32, documentId, t);
  }

  lemma SectionRoundTrip(marker: byte, s: Option<BlobSection>, t: seq<byte>)
    requires s.Some? ==> marker % 16 == s.value.encoding + 1 && s.value.offset < Limit(W64) && s.value.size < Limit(W64)
    requires s.None? ==> marker % 16 == 0
    ensures SectionFrom(marker, SectionBytes(s) + t) == Parsed(s, t)
  {
    hide Leb, LebBytes;
    match s
    case None => AppendEmpty(t);
    case Some(section) =>
      AppendAssoc(LebBytes(section.offset), LebBytes(section.size), t);
      LebRoundTrip(W64, section.offset, LebBytes(section.size) + t);
      LebRoundTrip(W64, section.size, t);
  }

  /** A storable blob id reads back as itself. */
  lemma BlobIdRoundTrip(b: BlobId, t: seq<byte>)
    requires StorableBlobId(b)
    ensures BlobIdFrom(BlobIdBytes(b) + t) == Parsed(b, t)
  {
    hide Leb, NextByte, Take, BlobClassFrom, SectionFrom, ClassBytes, SectionBytes;
    var marker := Marker(b);
    var cb, sb := ClassBytes(b.class_), SectionBytes(b.section);
    AppendNested([marker], b.hash, cb, sb, t);
    NextByteOf(marker, b.hash + (cb + (sb + t)));
    TakeOf(b.hash, cb + (sb + t));
    ClassRoundTrip(marker, b.class_, sb + t);
    SectionRoundTrip(marker, b.section, t);
  }

  lemma KeywordRoundTrip(utf8: seq<byte> -> bool, k: Keyword, t: seq<byte>)
    requires StorableKeyword(utf8, k)
    ensures KeywordFrom(utf8, KeywordBytes(k) + t) == Parsed(k, t)
  {
    hide Leb, LebBytes, Take;
    match k
    case System(number) => LebRoundTrip(W64, number, t);
    case Other(name) =>
      AppendAssoc(LebBytes(12 + |name|), name, t);
      LebRoundTrip(W64, 12 + |name|, name + t);
      TakeOf(name, t);
  }

  lemma PropertyRoundTrip(utf8: seq<byte> -> bool, p: Property, t: seq<byte>)
    requires StorableProperty(utf8, p)
    ensures PropertyFrom(utf8, PropertyBytes(p) + t) == Parsed(p, t)
  {
    hide Bytes, NextByte, StringBytes;
    match p
    case Known(code) => NextByteOf(code, t);
    case Custom(name) =>
      AppendAssoc([97], StringBytes(name), t);
      NextByteOf(97, StringBytes(name) + t);
      StringRoundTrip(name, t);
  }

  function Pow256(n: nat): (p: nat)
    ensures p > 0
  {
    if n == 0 then 1 else 256 * Pow256(n - 1)
  }

  lemma {:induction false} BigEndianRoundTrip(n: nat, width: nat)
    requires n < Pow256(width)
    ensures BigEndian(BigEndianBytes(n, width)) == n
  {
    if width > 0 {
      var init := BigEndianBytes(n / 256, width - 1);
      assert (init + [n % 256])[..width - 1] == init;
      BigEndianRoundTrip(n / 256, width - 1);
    }
  }

  lemma EightBytes()
    ensures Pow256(8) == Limit(W64)
  {
    assert Pow256(3) == 0x100_0000;
    assert Pow256(6) == 0x1_0000_0000_0000;
  }

  lemma GrantRoundTrip(g: AclGrant, t: seq<byte>)
    requires g.accountId < Limit(W32) && g.grants < Limit(W64)
    ensures GrantFrom(GrantBytes(g) + t) == Parsed(g, t)
  {
    EightBytes();
    BigEndianRoundTrip(g.grants, 8);
    hide Leb, LebBytes, Take, BigEndian, BigEndianBytes;
    AppendAssoc(LebBytes(g.accountId), BigEndianBytes(g.grants, 8), t);
    LebRoundTrip(W32, g.accountId, BigEndianBytes(g.grants, 8) + t);
    TakeOf(BigEndianBytes(g.grants, 8), t);
  }

  lemma {:induction false} GrantsRoundTrip(gs: seq<AclGrant>, t: seq<byte>)
    requires StorableGrants(gs)
    ensures GrantsFrom(|gs|, GrantsBytes(gs) + t) == Parsed(gs, t)
    decreases |gs|
  {
    hide GrantFrom, GrantBytes;
    if gs == [] {
      AppendEmpty(t);
    } else {
      AppendAssoc(GrantBytes(gs[0]), GrantsBytes(gs[1..]), t);
      GrantRoundTrip(gs[0], GrantsBytes(gs[1..]) + t);
      GrantsRoundTrip(gs[1..], t);
      HeadTail(gs);
    }
  }

  lemma AclRoundTrip(gs: seq<AclGrant>, t: seq<byte>)
    requires |gs| < Limit(W64) && StorableGrants(gs)
    ensures AclFrom(LebBytes(|gs|) + GrantsBytes(gs) + t) == Parsed(Acl(gs), t)
  {
    hide Leb, LebBytes, GrantsFrom, GrantsBytes, StorableGrants;
    AppendAssoc(LebBytes(|gs|), GrantsBytes(gs), t);
    LebRoundTrip(W64, |gs|, GrantsBytes(gs) + t);
    GrantsRoundTrip(gs, t);
  }

  lemma DateRoundTrip(date: Utc.UtcDate)
    requires Utc.ValidUtc(date) && (date.date.year >= 1970 || Utc.SecondsOfDay(date) == 0)
    ensures Utc.FromTimestamp(AsSigned(Utc.Timestamp(date) % Limit(W64))) == date
  {
    hide Utc.FromTimestamp, Utc.Timestamp, Utc.ValidUtc, AsSigned;
    Utc.UtcRoundTrip(date);
    Utc.TimestampBounds(date);
    SignedRoundTrip(Utc.Timestamp(date));
  }

  lemma SignedRoundTrip(n: int)
    requires -(Limit(W64) as int) / 2 <= n < Limit(W64) / 2
    ensures AsSigned(n % Limit(W64)) == n
  {
  }

  predicate IsLeaf(v: Value) {
    !v.List? && !v.Object?
  }

  lemma LeafRoundTrip(utf8: seq<byte> -> bool, v: Value, t: seq<byte>)
    requires IsLeaf(v) && Storable(utf8, v)
    ensures LeafFrom(utf8, Tag(v), BodyBytes(v) + t) == Parsed(v, t)
  {
    hide Leb, LebBytes, Bytes, StringBytes, BlobIdFrom, BlobIdBytes, KeywordFrom, KeywordBytes, AclFrom, GrantsBytes,
         AsSigned, Utc.FromTimestamp, Utc.Timestamp, Utc.ValidUtc, StorableGrants, StorableBlobId, StorableKeyword;
    match v
    case Text(text) => StringRoundTrip(text, t);
    case UnsignedInt(number) => LebRoundTrip(W64, number, t);
    case Id(id) => LebRoundTrip(W64, id, t);
    case Date(date) =>
      LebRoundTrip(W64, Utc.Timestamp(date) % Limit(W64), t);
      DateRoundTrip(date);
    case BlobRef(blobId) => BlobIdRoundTrip(blobId, t);
    case KeywordValue(keyword) => KeywordRoundTrip(utf8, keyword, t);
    case Acl(acls) => AclRoundTrip(acls, t);
    case Blob(blob) => StringRoundTrip(blob, t);
    case _ => AppendEmpty(t);
  }

  // ---- Nested values ----------------------------------------------------------------------------

  lemma {:induction false} ValueRoundTrip(utf8: seq<byte> -> bool, v: Value, t: seq<byte>)
    requires Storable(utf8, v)
    ensures ValueFrom(utf8, ValueBytes(v) + t) == Parsed(v, t)
    decreases v, 0
  {
    hide Leb, LebBytes, LeafFrom, NextByte, ItemsFrom, EntriesFrom, ItemsBytes, EntriesBytes;
    AppendAssoc([Tag(v)], BodyBytes(v), t);
    NextByteOf(Tag(v), BodyBytes(v) + t);
    match v
    case List(items) =>
      AppendAssoc(LebBytes(|items|), ItemsBytes(items), t);
      LebRoundTrip(W64, |items|, ItemsBytes(items) + t);
      ItemsRoundTrip(utf8, items, t);
    case Object(properties) =>
      AppendAssoc(LebBytes(|properties|), EntriesBytes(properties), t);
      LebRoundTrip(W64, |properties|, EntriesBytes(properties) + t);
      EntriesRoundTrip(utf8, properties, t);
    case _ => LeafRoundTrip(utf8, v, t);
  }

  lemma {:induction false} ItemsRoundTrip(utf8: seq<byte> -> bool, items: seq<Value>, t: seq<byte>)
    requires StorableItems(utf8, items)
    ensures ItemsFrom(utf8, |items|, ItemsBytes(items) + t) == Parsed(items, t)
    decreases items, 1
  {
    hide ValueFrom, ValueBytes, Storable;
    if items == [] {
      AppendEmpty(t);
    } else {
      AppendAssoc(ValueBytes(items[0]), ItemsBytes(items[1..]), t);
      ValueRoundTrip(utf8, items[0], ItemsBytes(items[1..]) + t);
      ItemsRoundTrip(utf8, items[1..], t);
      HeadTail(items);
    }
  }

  lemma {:induction false} EntriesRoundTrip(utf8: seq<byte> -> bool, entries: seq<Entry>, t: seq<byte>)
    requires StorableEntries(utf8, entries)
    ensures EntriesFrom(utf8, |entries|, EntriesBytes(entries) + t) == Parsed(entries, t)
    decreases entries, 1
  {
    hide ValueFrom, PropertyFrom, EntryBytes, StorableEntry;
    if entries == [] {
      AppendEmpty(t);
    } else {
      var e, more := entries[0], EntriesBytes(entries[1..]);
      AppendAssoc(EntryBytes(e), more, t);
      EntryRoundTrip(utf8, e, more + t);
      EntriesRoundTrip(utf8, entries[1..], t);
      HeadTail(entries);
    }
  }

  lemma {:induction false} EntryRoundTrip(utf8: seq<byte> -> bool, e: Entry, t: seq<byte>)
    requires StorableEntry(utf8, e)
    ensures var key := PropertyFrom(utf8, EntryBytes(e) + t);
            key.Parsed? && key.value == e.key && ValueFrom(utf8, key.rest) == Parsed(e.value, t)
    decreases e, 1
  {
    hide ValueFrom, ValueBytes, PropertyFrom, PropertyBytes, Storable, StorableProperty;
    AppendAssoc(PropertyBytes(e.key), ValueBytes(e.value), t);
    PropertyRoundTrip(utf8, e.key, ValueBytes(e.value) + t);
    ValueRoundTrip(utf8, e.value, t);
  }

  /** Every storable record, nested to any depth, reads back as itself and leaves what follows unread. */
  lemma ObjectRoundTrip(utf8: seq<byte> -> bool, entries: seq<Entry>, t: seq<byte>)
    requires |entries| < Limit(W64) && StorableEntries(utf8, entries)
    ensures ObjectFrom(utf8, ObjectBytes(entries) + t) == Parsed(entries, t)
  {
    hide Leb, LebBytes, EntriesFrom, EntriesBytes, StorableEntries;
    AppendAssoc(LebBytes(|entries|), EntriesBytes(entries), t);
    LebRoundTrip(W64, |entries|, EntriesBytes(entries) + t);
    EntriesRoundTrip(utf8, entries, t);
  }
}
