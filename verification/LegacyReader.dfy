/** The legacy record decoder as the source runs it: one shared cursor that every step advances. */
module LegacyReader {
  import opened Basics
  import opened Wire
  import opened LegacyObject
  import Utc = UtcDate

  /** A step returned what the format says, and on success left the cursor where it says. */
  ghost predicate Agrees<T>(p: Parsed<T>, r: Option<T>, rest: seq<byte>) {
    if p.Failed? then r == None else r == Some(p.value) && rest == p.rest
  }

  /** What is still to be decoded, after the elements already in a vector. */
  ghost function Onto<T>(done: seq<T>, p: Parsed<seq<T>>): Parsed<seq<T>> {
    if p.Failed? then Failed else Parsed(done + p.value, p.rest)
  }

  lemma OntoNothing<T>(p: Parsed<seq<T>>)
    ensures Onto([], p) == p
  {
    if p.Parsed? {
      AppendEmpty(p.value);
    }
  }

  /** Adding to what is still to be decoded of an integer the septets already read. */
  ghost function Plus(n: nat, p: Parsed<nat>): Parsed<nat> {
    if p.Failed? then Failed else Parsed(n + p.value, p.rest)
  }

  lemma LebStart(w: Width, s: seq<byte>)
    ensures Leb(w, s) == Plus(0, LebFrom(w, 0, s))
  {
  }

  /** One more byte of an integer: the last, or a septet to add to what follows. */
  lemma LebStep(w: Width, i: nat, n: nat, s: seq<byte>)
    requires i < Shifts(w)
    ensures NextByte(s).Failed? ==> Plus(n, LebFrom(w, i, s)).Failed?
    ensures NextByte(s).Parsed? ==>
              var b, rest := NextByte(s).value, NextByte(s).rest;
              var m := n + Septet(w, i, b);
              Plus(n, LebFrom(w, i, s)) == if b < 128 then Parsed(m, rest) else Plus(m, LebFrom(w, i + 1, rest))
  {
    hide Septet;
  }

  lemma LebEnd(w: Width, s: seq<byte>)
    ensures LebFrom(w, Shifts(w), s).Failed?
  {
  }

  lemma TakeStep(n: nat, done: seq<byte>, s: seq<byte>)
    requires n > 0 && s != []
    ensures Onto(done, Take(n, s)) == Onto(done + [s[0]], Take(n - 1, s[1..]))
  {
    if n <= |s| {
      assert done + s[..n] == done + [s[0]] + s[1..][..n - 1];
      assert s[1..][n - 1..] == s[n..];
    }
  }

  lemma GrantsStep(n: nat, done: seq<AclGrant>, s: seq<byte>)
    requires n > 0
    ensures var grant := GrantFrom(s);
            Onto(done, GrantsFrom(n, s)) ==
              if grant.Failed? then Failed else Onto(done + [grant.value], GrantsFrom(n - 1, grant.rest))
  {
    hide GrantFrom;
    var grant := GrantFrom(s);
    if grant.Parsed? && GrantsFrom(n - 1, grant.rest).Parsed? {
      AppendAssoc(done, [grant.value], GrantsFrom(n - 1, grant.rest).value);
    }
  }

  lemma ItemsStep(utf8: seq<byte> -> bool, n: nat, done: seq<Value>, s: seq<byte>)
    requires n > 0
    ensures var item := ValueFrom(utf8, s);
            Onto(done, ItemsFrom(utf8, n, s)) ==
              if item.Failed? then Failed else Onto(done + [item.value], ItemsFrom(utf8, n - 1, item.rest))
  {
    hide ValueFrom;
    var item := ValueFrom(utf8, s);
    if item.Parsed? && ItemsFrom(utf8, n - 1, item.rest).Parsed? {
      AppendAssoc(done, [item.value], ItemsFrom(utf8, n - 1, item.rest).value);
    }
  }

  lemma EntriesStep(utf8: seq<byte> -> bool, n: nat, done: seq<Entry>, s: seq<byte>)
    requires n > 0
    ensures var key := PropertyFrom(utf8, s);
            key.Failed? ==> Onto(done, EntriesFrom(utf8, n, s)) == Failed
    ensures var key := PropertyFrom(utf8, s);
            key.Parsed? ==>
              var value := ValueFrom(utf8, key.rest);
              Onto(done, EntriesFrom(utf8, n, s)) ==
                if value.Failed? then Failed
                else Onto(done + [Entry(key.value, value.value)], EntriesFrom(utf8, n - 1, value.rest))
  {
    hide ValueFrom, PropertyFrom;
    var key := PropertyFrom(utf8, s);
    if key.Parsed? {
      var value := ValueFrom(utf8, key.rest);
      if value.Parsed? && EntriesFrom(utf8, n - 1, value.rest).Parsed? {
        AppendAssoc(done, [Entry(key.value, value.value)], EntriesFrom(utf8, n - 1, value.rest).value);
      }
    }
  }

  class Reader {
    const utf8: seq<byte> -> bool
    var rest: seq<byte>

    constructor (utf8: seq<byte> -> bool, bytes: seq<byte>)
      ensures this.utf8 == utf8 && rest == bytes
    {
      this.utf8 := utf8;
      rest := bytes;
    }

    method Next() returns (r: Option<byte>)
      modifies this
      ensures Agrees(NextByte(old(rest)), r, rest)
      ensures r.None? ==> rest == old(rest)
    {
      if rest == [] {
        return None;
      }
      r := Some(rest[0]);
      rest := rest[1..];
    }

    method NextLeb128(w: Width) returns (r: Option<nat>)
      modifies this
      ensures Agrees(Leb(w, old(rest)), r, rest)
    {
      hide Septet, Leb, LebFrom, NextByte;
      var result: nat := 0;
      var i := 0;
      LebStart(w, rest);
      while i < Shifts(w)
        invariant 0 <= i <= Shifts(w)
        invariant Leb(w, old(rest)) == Plus(result, LebFrom(w, i, rest))
      {
        LebStep(w, i, result, rest);
        var b := Next();
        if b == None {
          return None;
        }
        result := result + Septet(w, i, b.value);
        if b.value < 128 {
          return Some(result);
        }
        i := i + 1;
      }
      LebEnd(w, rest);
      return None;
    }

    method TakeBytes(n: nat) returns (r: Option<seq<byte>>)
      modifies this
      ensures Agrees(Take(n, old(rest)), r, rest)
    {
      var buf: seq<byte> := [];
      hide Take, NextByte;
      OntoNothing(Take(n, rest));
      for i := 0 to n
        invariant Take(n, old(rest)) == Onto(buf, Take(n - i, rest))
      {
        ghost var s := rest;
        var b := Next();
        if b == None {
          TakeNothing(n - i, s);
          return None;
        }
        NextIsHead(s);
        TakeStep(n - i, buf, s);
        buf := buf + [b.value];
      }
      TakeZero(buf, rest);
      return Some(buf);
    }

    method ReadBytes() returns (r: Option<seq<byte>>)
      modifies this
      ensures Agrees(Bytes(old(rest)), r, rest)
    {
      hide Leb, Take;
      var len := NextLeb128(W64);
      if len == None {
        return None;
      }
      r := TakeBytes(len.value);
    }

    method ReadString() returns (r: Option<seq<byte>>)
      modifies this
      ensures Agrees(String(utf8, old(rest)), r, rest)
    {
      hide Bytes;
      r := ReadBytes();
      if r != None && !utf8(r.value) {
        return None;
      }
    }

    method ReadBlobId() returns (r: Option<BlobId>)
      modifies this
      ensures Agrees(BlobIdFrom(old(rest)), r, rest)
    {
      hide Leb, Take, NextByte, BlobTail;
      var marker := Next();
      if marker == None {
        return None;
      }
      var hash := TakeBytes(HASH_LEN);
      if hash == None {
        return None;
      }
      r := ReadBlobTail(marker.value, hash.value);
    }

    method ReadBlobTail(marker: byte, hash: seq<byte>) returns (r: Option<BlobId>)
      modifies this
      ensures Agrees(BlobTail(marker, hash, old(rest)), r, rest)
    {
      hide Leb, BlobClassFrom, SectionFrom;
      var account := NextLeb128(W32);
      if account == None {
        return None;
      }
      var class_ := ReadBlobClass(marker, account.value);
      if class_ == None {
        return None;
      }
      var section := ReadSection(marker);
      if section == None {
        return None;
      }
      return Some(BlobId(hash, class_.value, section.value));
    }

    method ReadBlobClass(marker: byte, accountId: nat) returns (r: Option<BlobClass>)
      modifies this
      ensures Agrees(BlobClassFrom(marker, accountId, old(rest)), r, rest)
    {
      hide Leb, NextByte;
      if marker / 16 % 2 == 1 {
        var collection := Next();
        if collection == None {
          return None;
        }
        var documentId := NextLeb128(W32);
        if documentId == None {
          return None;
        }
        return Some(Linked(accountId, collection.value, documentId.value));
      }
      var expires := NextLeb128(W64);
      if expires == None {
        return None;
      }
      return Some(Reserved(accountId, expires.value));
    }

    method ReadSection(marker: byte) returns (r: Option<Option<BlobSection>>)
      modifies this
      ensures Agrees(SectionFrom(marker, old(rest)), r, rest)
    {
      hide Leb;
      if marker % 16 == 0 {
        return Some(None);
      }
      var offset := NextLeb128(W64);
      if offset == None {
        return None;
      }
      var size := NextLeb128(W64);
      if size == None {
        return None;
      }
      return Some(Some(BlobSection(offset.value, size.value, marker % 16 - 1)));
    }

    method ReadKeyword() returns (r: Option<Keyword>)
      modifies this
      ensures Agrees(KeywordFrom(utf8, old(rest)), r, rest)
    {
      hide Leb, Take;
      var n := NextLeb128(W64);
      if n == None {
        return None;
      }
      if n.value < SYSTEM_KEYWORDS {
        return Some(System(n.value));
      }
      var name := TakeBytes(n.value - SYSTEM_KEYWORDS);
      if name == None || !utf8(name.value) {
        return None;
      }
      return Some(Other(name.value));
    }

    method ReadProperty() returns (r: Option<Property>)
      modifies this
      ensures Agrees(PropertyFrom(utf8, old(rest)), r, rest)
    {
      hide String, NextByte;
      var code := Next();
      if code == None {
        return None;
      }
      if IsKnown(code.value) {
        return Some(Known(code.value));
      }
      if code.value == CUSTOM_PROPERTY {
        var name := ReadString();
        if name == None {
          return None;
        }
        return Some(Custom(name.value));
      }
      return None;
    }

    method ReadGrant() returns (r: Option<AclGrant>)
      modifies this
      ensures Agrees(GrantFrom(old(rest)), r, rest)
    {
      hide Leb, Take;
      var account := NextLeb128(W32);
      if account == None {
        return None;
      }
      var grants := TakeBytes(8);
      if grants == None {
        return None;
      }
      return Some(AclGrant(account.value, BigEndian(grants.value)));
    }

    method ReadAcl() returns (r: Option<Value>)
      modifies this
      ensures Agrees(AclFrom(old(rest)), r, rest)
    {
      hide Leb, GrantsFrom, GrantFrom;
      var len := NextLeb128(W64);
      if len == None {
        return None;
      }
      var items: seq<AclGrant> := [];
      ghost var start := rest;
      OntoNothing(GrantsFrom(len.value, start));
      for i := 0 to len.value
        invariant GrantsFrom(len.value, start) == Onto(items, GrantsFrom(len.value - i, rest))
      {
        GrantsStep(len.value - i, items, rest);
        var grant := ReadGrant();
        if grant == None {
          return None;
        }
        items := items + [grant.value];
      }
      NoMoreGrants(items, rest);
      return Some(Acl(items));
    }

    method ReadLeaf(tag: byte) returns (r: Option<Value>)
      modifies this
      ensures Agrees(LeafFrom(utf8, tag, old(rest)), r, rest)
    {
      hide Leb, String, Bytes, BlobIdFrom, KeywordFrom, AclFrom, AsSigned, Utc.FromTimestamp;
      if tag == TEXT {
        var x := ReadString();
        r := if x == None then None else Some(Text(x.value));
      } else if tag == UNSIGNED_INT {
        var x := NextLeb128(W64);
        r := if x == None then None else Some(UnsignedInt(x.value));
      } else if tag == BOOL_TRUE {
        r := Some(Bool(true));
      } else if tag == BOOL_FALSE {
        r := Some(Bool(false));
      } else if tag == ID {
        var x := NextLeb128(W64);
        r := if x == None then None else Some(Id(x.value));
      } else if tag == DATE {
        var x := NextLeb128(W64);
        r := if x == None then None else Some(Date(Utc.FromTimestamp(AsSigned(x.value))));
      } else if tag == BLOB_ID {
        var x := ReadBlobId();
        r := if x == None then None else Some(BlobRef(x.value));
      } else if tag == KEYWORD {
        var x := ReadKeyword();
        r := if x == None then None else Some(KeywordValue(x.value));
      } else if tag == BLOB {
        var x := ReadBytes();
        r := if x == None then None else Some(Blob(x.value));
      } else if tag == ACL {
        r := ReadAcl();
      } else if tag == NULL {
        r := Some(Null);
      } else {
        r := None;
      }
    }

    method ReadValue() returns (r: Option<Value>)
      modifies this
      ensures Agrees(ValueFrom(utf8, old(rest)), r, rest)
      decreases |rest|, 1
    {
      hide NextByte, LeafFrom, ObjectFrom, ItemsFrom, Leb;
      ghost var start := rest;
      var tag := Next();
      if tag == None {
        return None;
      }
      NextShrinks(start);
      if tag.value == LIST {
        var items := ReadList();
        r := if items == None then None else Some(List(items.value));
      } else if tag.value == OBJECT {
        var entries := ReadObject();
        r := if entries == None then None else Some(Object(entries.value));
      } else {
        r := ReadLeaf(tag.value);
      }
    }

    method ReadList() returns (r: Option<seq<Value>>)
      modifies this
      ensures Agrees(ListFrom(utf8, old(rest)), r, rest)
      decreases |rest|, 2
    {
      hide Leb, ItemsFrom, ValueFrom;
      var len := NextLeb128(W64);
      if len == None {
        return None;
      }
      ghost var start := rest;
      var items: seq<Value> := [];
      OntoNothing(ItemsFrom(utf8, len.value, start));
      for i := 0 to len.value
        invariant |rest| < |old(rest)|
        invariant ItemsFrom(utf8, len.value, start) == Onto(items, ItemsFrom(utf8, len.value - i, rest))
      {
        ItemsStep(utf8, len.value - i, items, rest);
        var item := ReadValue();
        if item == None {
          return None;
        }
        items := items + [item.value];
      }
      NoMoreItems(utf8, items, rest);
      return Some(items);
    }

    method ReadObject() returns (r: Option<seq<Entry>>)
      modifies this
      ensures Agrees(ObjectFrom(utf8, old(rest)), r, rest)
      decreases |rest|, 2
    {
      hide Leb, EntriesFrom, ValueFrom, PropertyFrom;
      var len := NextLeb128(W64);
      if len == None {
        return None;
      }
      ghost var start := rest;
      var properties: seq<Entry> := [];
      OntoNothing(EntriesFrom(utf8, len.value, start));
      for i := 0 to len.value
        invariant |rest| < |old(rest)|
        invariant EntriesFrom(utf8, len.value, start) == Onto(properties, EntriesFrom(utf8, len.value - i, rest))
      {
        EntriesStep(utf8, len.value - i, properties, rest);
        var key := ReadProperty();
        if key == None {
          return None;
        }
        var value := ReadValue();
        if value == None {
          return None;
        }
        properties := properties + [Entry(key.value, value.value)];
      }
      NoMoreEntries(utf8, properties, rest);
      return Some(properties);
    }
  }

  lemma NextIsHead(s: seq<byte>)
    requires NextByte(s).Parsed?
    ensures s != [] && NextByte(s) == Parsed(s[0], s[1..])
  {
  }

  lemma NextShrinks(s: seq<byte>)
    ensures NextByte(s).Parsed? ==> |NextByte(s).rest| < |s|
  {
  }

  lemma TakeNothing(n: nat, s: seq<byte>)
    requires n > 0 && NextByte(s).Failed?
    ensures Take(n, s).Failed?
  {
  }

  lemma TakeZero(done: seq<byte>, s: seq<byte>)
    ensures Onto(done, Take(0, s)) == Parsed(done, s)
  {
    AppendEmpty(done);
  }

  lemma NoMoreGrants(done: seq<AclGrant>, s: seq<byte>)
    ensures Onto(done, GrantsFrom(0, s)) == Parsed(done, s)
  {
    AppendEmpty(done);
  }

  lemma NoMoreItems(utf8: seq<byte> -> bool, done: seq<Value>, s: seq<byte>)
    ensures Onto(done, ItemsFrom(utf8, 0, s)) == Parsed(done, s)
  {
    AppendEmpty(done);
  }

  lemma NoMoreEntries(utf8: seq<byte> -> bool, done: seq<Entry>, s: seq<byte>)
    ensures Onto(done, EntriesFrom(utf8, 0, s)) == Parsed(done, s)
  {
    AppendEmpty(done);
  }
}
