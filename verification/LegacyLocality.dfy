/**
 Each decoder of legacy records looks only at the bytes it consumes: what it consumed, followed by
 anything else, decodes to the same value and leaves exactly that anything unread.
 */
module LegacyLocality {
  import opened Basics
  import opened Wire
  import opened LegacyObject
  import opened LegacyFormat

  lemma BlobIdLocal(s: seq<byte>, t: seq<byte>) returns (c: seq<byte>)
    requires BlobIdFrom(s).Parsed?
    ensures s == c + BlobIdFrom(s).rest && BlobIdFrom(c + t) == Parsed(BlobIdFrom(s).value, t)
  {
    hide BlobIdFrom, IsBlobId;
    c := BlobIdShape(s);
    BlobIdReads(BlobIdFrom(s).value, c, t);
  }

  lemma KeywordLocal(utf8: seq<byte> -> bool, s: seq<byte>, t: seq<byte>) returns (c: seq<byte>)
    requires KeywordFrom(utf8, s).Parsed?
    ensures var p := KeywordFrom(utf8, s);
            s == c + p.rest && KeywordFrom(utf8, c + t) == Parsed(p.value, t)
  {
    hide KeywordFrom, IsKeyword;
    c := KeywordShape(utf8, s);
    KeywordReads(utf8, KeywordFrom(utf8, s).value, c, t);
  }

  lemma PropertyLocal(utf8: seq<byte> -> bool, s: seq<byte>, t: seq<byte>) returns (c: seq<byte>)
    requires PropertyFrom(utf8, s).Parsed?
    ensures var p := PropertyFrom(utf8, s);
            s == c + p.rest && PropertyFrom(utf8, c + t) == Parsed(p.value, t)
  {
    hide PropertyFrom, IsProperty;
    c := PropertyShape(utf8, s);
    PropertyReads(utf8, PropertyFrom(utf8, s).value, c, t);
  }

  lemma ValueLocal(utf8: seq<byte> -> bool, s: seq<byte>, t: seq<byte>) returns (c: seq<byte>)
    requires ValueFrom(utf8, s).Parsed?
    ensures s == c + ValueFrom(utf8, s).rest && ValueFrom(utf8, c + t) == Parsed(ValueFrom(utf8, s).value, t)
  {
    hide ValueFrom, IsValue;
    c := ValueShape(utf8, s);
    ValueReads(utf8, ValueFrom(utf8, s).value, c, t);
  }

  lemma ObjectLocal(utf8: seq<byte> -> bool, s: seq<byte>, t: seq<byte>) returns (c: seq<byte>)
    requires ObjectFrom(utf8, s).Parsed?
    ensures s == c + ObjectFrom(utf8, s).rest && ObjectFrom(utf8, c + t) == Parsed(ObjectFrom(utf8, s).value, t)
  {
    hide ObjectFrom, IsObject;
    c := ObjectShape(utf8, s);
    ObjectReads(utf8, ObjectFrom(utf8, s).value, c, t);
  }

  /** Appending anything to a record that decodes changes neither its value nor what it consumes. */
  lemma ObjectIgnoresSuffix(utf8: seq<byte> -> bool, s: seq<byte>, suffix: seq<byte>)
    requires ObjectFrom(utf8, s).Parsed?
    ensures ObjectFrom(utf8, s + suffix) == Parsed(ObjectFrom(utf8, s).value, ObjectFrom(utf8, s).rest + suffix)
    ensures |ObjectFrom(utf8, s).rest| < |s|
  {
    hide ObjectFrom;
    var rest := ObjectFrom(utf8, s).rest;
    var c := ObjectLocal(utf8, s, rest + suffix);
    AppendAssoc(c, rest, suffix);
  }

  /** A record cut short does not decode. */
  lemma TruncatedObjectFails(utf8: seq<byte> -> bool, s: seq<byte>, k: nat)
    requires ObjectFrom(utf8, s).Parsed? && k < |s| - |ObjectFrom(utf8, s).rest|
    ensures ObjectFrom(utf8, s[..k]).Failed?
  {
    hide ObjectFrom;
    var c := ObjectLocal(utf8, s, []);
    AppendEmpty(c);
    assert s[..k] + c[k..] == c;
    if ObjectFrom(utf8, s[..k]).Parsed? {
      ObjectIgnoresSuffix(utf8, s[..k], c[k..]);
    }
  }
}
