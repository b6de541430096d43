/**
 Legacy records: property lists whose values nest to any depth. This module says what a byte stream
 decodes to, and that a decoder looks at nothing beyond the bytes it consumes.
 */
module LegacyObject {
  import opened Basics
  import opened Wire
  import Utc = UtcDate

  // ---- Values -----------------------------------------------------------------------------------

  datatype BlobClass =
    | Reserved(accountId: nat, expires: nat)
    | Linked(accountId: nat, collection: byte, documentId: nat)

  datatype BlobSection = BlobSection(offset: nat, size: nat, encoding: nat)

  datatype BlobId = BlobId(hash: seq<byte>, class_: BlobClass, section: Option<BlobSection>)

  /** One of the twelve system keywords by number, or any other by name. */
  datatype Keyword = System(number: nat) | Other(name: seq<byte>)

  /** A property by its code, or a custom one by name. */
  datatype Property = Known(code: byte) | Custom(name: seq<byte>)

  datatype AclGrant = AclGrant(accountId: nat, grants: nat)

  datatype Entry = Entry(key: Property, value: Value)

  datatype Value =
    | Text(text: seq<byte>)
    | UnsignedInt(number: nat)
    | Bool(flag: bool)
    | Id(id: nat)
    | Date(date: Utc.UtcDate)
    | BlobRef(blobId: BlobId)
    | KeywordValue(keyword: Keyword)
    | List(items: seq<Value>)
    | Object(properties: seq<Entry>)
    | Acl(acls: seq<AclGrant>)
    | Blob(blob: seq<byte>)
    | Null

  const TEXT := 0
  const UNSIGNED_INT := 1
  const BOOL_TRUE := 2
  const BOOL_FALSE := 3
  const ID := 4
  const DATE := 5
  const BLOB_ID := 6
  const BLOB := 7
  const KEYWORD := 8
  const LIST := 9
  const OBJECT := 10
  const ACL := 11
  const NULL := 12

  const HASH_LEN := 32
  const SYSTEM_KEYWORDS := 12
  const CUSTOM_PROPERTY := 97

  // ---- Decoders without nesting -----------------------------------------------------------------

  function Bytes(s: seq<byte>): (r: Parsed<seq<byte>>)
    ensures r.Parsed? ==> |r.rest| < |s|
  {
    var len :- Leb(W64, s);
    Take(len.0, len.1)
  }

  /** Text is a byte string that `utf8` accepts. */
  function String(utf8: seq<byte> -> bool, s: seq<byte>): (r: Parsed<seq<byte>>)
    ensures r.Parsed? ==> |r.rest| < |s|
  {
    var text :- Bytes(s);
    if utf8(text.0) then Parsed(text.0, text.1) else Failed
  }

  function BlobClassFrom(marker: byte, accountId: nat, s: seq<byte>): (r: Parsed<BlobClass>)
    ensures r.Parsed? ==> |r.rest| < |s|
  {
    if marker / 16 % 2 == 1 then
      var collection :- NextByte(s);
      Wrap(Leb(W32, collection.1), d => Linked(accountId, collection.0, d))
    else
      Wrap(Leb(W64, s), e => Reserved(accountId, e))
  }

  function SectionFrom(marker: byte, s: seq<byte>): (r: Parsed<Option<BlobSection>>)
    ensures r.Parsed? ==> |r.rest| <= |s|
  {
    if marker % 16 == 0 then Parsed(None, s) else
      var offset :- Leb(W64, s);
      Wrap(Leb(W64, offset.1), size => Some(BlobSection(offset.0, size, marker % 16 - 1)))
  }

  /** What follows the hash of a blob id. */
  function BlobTail(marker: byte, hash: seq<byte>, s: seq<byte>): (r: Parsed<BlobId>)
    ensures r.Parsed? ==> |r.rest| < |s|
  {
    var account :- Leb(W32, s);
    var class_ :- BlobClassFrom(marker, account.0, account.1);
    Wrap(SectionFrom(marker, class_.1), section => BlobId(hash, class_.0, section))
  }

  function BlobIdFrom(s: seq<byte>): (r: Parsed<BlobId>)
    ensures r.Parsed? ==> |r.rest| < |s|
  {
    var marker :- NextByte(s);
    var hash :- Take(HASH_LEN, marker.1);
    BlobTail(marker.0, hash.0, hash.1)
  }

  function KeywordFrom(utf8: seq<byte> -> bool, s: seq<byte>): (r: Parsed<Keyword>)
    ensures r.Parsed? ==> |r.rest| < |s|
  {
    var n :- Leb(W64, s);
    if n.0 < SYSTEM_KEYWORDS then Parsed(System(n.0), n.1) else
      var name :- Take(n.0 - SYSTEM_KEYWORDS, n.1);
      if utf8(name.0) then Parsed(Other(name.0), name.1) else Failed
  }

  predicate IsKnown(code: byte) {
    code < 90 || 91 <= code <= 96 || 98 <= code <= 103
  }

  function PropertyFrom(utf8: seq<byte> -> bool, s: seq<byte>): (r: Parsed<Property>)
    ensures r.Parsed? ==> |r.rest| < |s|
  {
    var code :- NextByte(s);
    if IsKnown(code.0) then Parsed(Known(code.0), code.1)
    else if code.0 == CUSTOM_PROPERTY then Wrap(String(utf8, code.1), name => Custom(name))
    else Failed
  }

  function BigEndian(s: seq<byte>): nat {
    if s == [] then 0 else BigEndian(s[..|s| - 1]) * 256 + s[|s| - 1]
  }

  function GrantFrom(s: seq<byte>): (r: Parsed<AclGrant>)
    ensures r.Parsed? ==> |r.rest| < |s|
  {
    var account :- Leb(W32, s);
    Wrap(Take(8, account.1), grants => AclGrant(account.0, BigEndian(grants)))
  }

  function GrantsFrom(n: nat, s: seq<byte>): (r: Parsed<seq<AclGrant>>)
    ensures r.Parsed? ==> |r.rest| <= |s|
    decreases |s|
  {
    if n == 0 then Parsed([], s) else
      var grant :- GrantFrom(s);
      Wrap(GrantsFrom(n - 1, grant.1), more => [grant.0] + more)
  }

  function AclFrom(s: seq<byte>): (r: Parsed<Value>)
    ensures r.Parsed? ==> |r.rest| < |s|
  {
    var len :- Leb(W64, s);
    Wrap(GrantsFrom(len.0, len.1), grants => Acl(grants))
  }

  /** An unsigned word read as a signed one. */
  function AsSigned(n: nat): int {
    if n < Limit(W64) / 2 then n else n - Limit(W64)
  }

  /** The values without nesting, after their tag. */
  function LeafFrom(utf8: seq<byte> -> bool, tag: byte, s: seq<byte>): (r: Parsed<Value>)
    ensures r.Parsed? ==> |r.rest| <= |s|
  {
    if tag == TEXT then Wrap(String(utf8, s), x => Text(x))
    else if tag == UNSIGNED_INT then Wrap(Leb(W64, s), x => UnsignedInt(x))
    else if tag == BOOL_TRUE then Parsed(Bool(true), s)
    else if tag == BOOL_FALSE then Parsed(Bool(false), s)
    else if tag == ID then Wrap(Leb(W64, s), x => Id(x))
    else if tag == DATE then Wrap(Leb(W64, s), x => Date(Utc.FromTimestamp(AsSigned(x))))
    else if tag == BLOB_ID then Wrap(BlobIdFrom(s), x => BlobRef(x))
    else if tag == KEYWORD then Wrap(KeywordFrom(utf8, s), x => KeywordValue(x))
    else if tag == BLOB then Wrap(Bytes(s), x => Blob(x))
    else if tag == ACL then AclFrom(s)
    else if tag == NULL then Parsed(Null, s)
    else Failed
  }

  // ---- Nested decoders --------------------------------------------------------------------------

  function ValueFrom(utf8: seq<byte> -> bool, s: seq<byte>): (r: Parsed<Value>)
    ensures r.Parsed? ==> |r.rest| < |s|
    decreases |s|, 0
  {
    var tag :- NextByte(s);
    if tag.0 == LIST then
      Wrap(ListFrom(utf8, tag.1), items => List(items))
    else if tag.0 == OBJECT then
      Wrap(ObjectFrom(utf8, tag.1), entries => Object(entries))
    else
      LeafFrom(utf8, tag.0, tag.1)
  }

  function ListFrom(utf8: seq<byte> -> bool, s: seq<byte>): (r: Parsed<seq<Value>>)
    ensures r.Parsed? ==> |r.rest| < |s|
    decreases |s|, 2
  {
    var len :- Leb(W64, s);
    ItemsFrom(utf8, len.0, len.1)
  }

  function ItemsFrom(utf8: seq<byte> -> bool, n: nat, s: seq<byte>): (r: Parsed<seq<Value>>)
    ensures r.Parsed? ==> |r.rest| <= |s|
    decreases |s|, 1
  {
    if n == 0 then Parsed([], s) else
      var item :- ValueFrom(utf8, s);
      Wrap(ItemsFrom(utf8, n - 1, item.1), more => [item.0] + more)
  }

  function EntriesFrom(utf8: seq<byte> -> bool, n: nat, s: seq<byte>): (r: Parsed<seq<Entry>>)
    ensures r.Parsed? ==> |r.rest| <= |s|
    decreases |s|, 1
  {
    if n == 0 then Parsed([], s) else
      var key :- PropertyFrom(utf8, s);
      var value :- ValueFrom(utf8, key.1);
      Wrap(EntriesFrom(utf8, n - 1, value.1), more => [Entry(key.0, value.0)] + more)
  }

  function ObjectFrom(utf8: seq<byte> -> bool, s: seq<byte>): (r: Parsed<seq<Entry>>)
    ensures r.Parsed? ==> |r.rest| < |s|
    decreases |s|, 2
  {
    var len :- Leb(W64, s);
    EntriesFrom(utf8, len.0, len.1)
  }
}
