/**
 The format of a legacy record, stated on its bytes alone: which stretches of bytes stand for a
 number, a keyword, a property, a value or a whole record. A decoder accepts exactly the streams that
 begin with such a stretch, gives what it stands for, and leaves what follows it.
 */
module LegacyFormat {
  import opened Basics
  import opened Wire
  import opened LegacyObject
  import Utc = UtcDate

  // ---- Numbers ----------------------------------------------------------------------------------

  /** The number written in septets, the least significant first. */
  function Septets(c: seq<byte>): nat {
    if c == [] then 0 else c[0] % 128 + 128 * Septets(c[1..])
  }

  /** Every byte but the last has its high bit set. */
  predicate Terminated(c: seq<byte>) {
    c != [] && c[|c| - 1] < 128 && forall i :: 0 <= i < |c| - 1 ==> c[i] >= 128
  }

  /** At most five bytes of septets for a 32-bit word and ten for a 64-bit one, which keeps its low bits. */
  predicate IsNumber(w: Width, n: nat, c: seq<byte>) {
    && Terminated(c)
    && |c| <= (if w.W32? then 5 else 10)
    && n == Septets(c) % (if w.W32? then 0x1_0000_0000 else 0x1_0000_0000_0000_0000)
  }

  // ---- Parts of a record ------------------------------------------------------------------------

  ghost predicate IsBytes(x: seq<byte>, c: seq<byte>) {
    exists n: seq<byte> :: IsNumber(W64, |x|, n) && c == n + x
  }

  ghost predicate IsText(utf8: seq<byte> -> bool, x: seq<byte>, c: seq<byte>) {
    utf8(x) && IsBytes(x, c)
  }

  ghost predicate IsKeyword(utf8: seq<byte> -> bool, k: Keyword, c: seq<byte>) {
    match k
    case System(number) => number < 12 && IsNumber(W64, number, c)
    case Other(name) => utf8(name) && exists n: seq<byte> :: IsNumber(W64, 12 + |name|, n) && c == n + name
  }

  ghost predicate IsProperty(utf8: seq<byte> -> bool, p: Property, c: seq<byte>) {
    match p
    case Known(code) => c == [code] && code <= 103 && code != 90 && code != 97
    case Custom(name) => c != [] && c[0] == 97 && IsText(utf8, name, c[1..])
  }

  /** What follows the account of a blob id: bit four of the marker tells a link from a reservation. */
  ghost predicate IsClass(marker: byte, b: BlobClass, c: seq<byte>) {
    match b
    case Linked(_, collection, documentId) =>
      marker % 32 >= 16 && c != [] && c[0] == collection && IsNumber(W32, documentId, c[1..])
    case Reserved(_, expires) => marker % 32 < 16 && IsNumber(W64, expires, c)
  }

  /** The low four bits of the marker: none for no section, or one more than its encoding. */
  ghost predicate IsSection(marker: byte, b: Option<BlobSection>, c: seq<byte>) {
    match b
    case None => marker % 16 == 0 && c == []
    case Some(x) =>
      && marker % 16 == x.encoding + 1
      && exists o: seq<byte>, z: seq<byte> :: IsNumber(W64, x.offset, o) && IsNumber(W64, x.size, z) && c == o + z
  }

  ghost predicate IsBlobTail(marker: byte, b: BlobId, c: seq<byte>) {
    exists a: seq<byte>, k: seq<byte>, z: seq<byte> ::
      IsNumber(W32, b.class_.accountId, a) && IsClass(marker, b.class_, k) && IsSection(marker, b.section, z)
      && c == a + (k + z)
  }

  /** A marker, the 32 bytes of the hash, the account, the class and the section. */
  ghost predicate IsBlobId(b: BlobId, c: seq<byte>) {
    |b.hash| == 32 && |c| >= 33 && c[1..33] == b.hash && IsBlobTail(c[0], b, c[33..])
  }

  /** An account and eight bytes of rights, the most significant first. */
  ghost predicate IsGrant(g: AclGrant, c: seq<byte>) {
    exists a: seq<byte>, r: seq<byte> :: IsNumber(W32, g.accountId, a) && IsRights(g.grants, r) && c == a + r
  }

  predicate IsRights(grants: nat, r: seq<byte>) {
    && |r| == 8
    && grants == 0x100_0000_0000_0000 * (r[0] as int) + 0x1_0000_0000_0000 * (r[1] as int)
                 + 0x100_0000_0000 * (r[2] as int) + 0x1_0000_0000 * (r[3] as int)
                 + 0x100_0000 * (r[4] as int) + 0x1_0000 * (r[5] as int) + 0x100 * (r[6] as int) + r[7]
  }

  ghost predicate IsGrants(gs: seq<AclGrant>, c: seq<byte>) {
    if gs == [] then c == [] else
      exists a: seq<byte>, b: seq<byte> :: IsGrant(gs[0], a) && IsGrants(gs[1..], b) && c == a + b
  }

  ghost predicate IsAcl(gs: seq<AclGrant>, c: seq<byte>) {
    exists n: seq<byte>, b: seq<byte> :: IsNumber(W64, |gs|, n) && IsGrants(gs, b) && c == n + b
  }

  /** Seconds since the epoch in two's complement. */
  ghost predicate IsDate(date: Utc.UtcDate, c: seq<byte>) {
    exists n: nat :: IsNumber(W64, n, c) && date == Utc.FromTimestamp(
      if n < 0x8000_0000_0000_0000 then n else n - 0x1_0000_0000_0000_0000)
  }

  // ---- Values and records -----------------------------------------------------------------------

  ghost predicate IsLeaf(utf8: seq<byte> -> bool, tag: byte, v: Value, c: seq<byte>) {
    match v
    case Text(text) => tag == 0 && IsText(utf8, text, c)
    case UnsignedInt(number) => tag == 1 && IsNumber(W64, number, c)
    case Bool(flag) => tag == (if flag then 2 else 3) && c == []
    case Id(id) => tag == 4 && IsNumber(W64, id, c)
    case Date(date) => tag == 5 && IsDate(date, c)
    case BlobRef(blobId) => tag == 6 && IsBlobId(blobId, c)
    case Blob(blob) => tag == 7 && IsBytes(blob, c)
    case KeywordValue(keyword) => tag == 8 && IsKeyword(utf8, keyword, c)
    case Acl(acls) => tag == 11 && IsAcl(acls, c)
    case Null => tag == 12 && c == []
    case List(_) => false
    case Object(_) => false
  }

  ghost predicate IsValue(utf8: seq<byte> -> bool, v: Value, c: seq<byte>)
    decreases v, 0
  {
    c != [] &&
    match v
    case List(items) =>
      && c[0] == 9
      && exists n: seq<byte>, b: seq<byte> ::
        IsNumber(W64, |items|, n) && IsItems(utf8, items, b) && c[1..] == n + b
    case Object(entries) =>
      && c[0] == 10
      && exists n: seq<byte>, b: seq<byte> ::
        IsNumber(W64, |entries|, n) && IsEntries(utf8, entries, b) && c[1..] == n + b
    case _ => IsLeaf(utf8, c[0], v, c[1..])
  }

  ghost predicate IsItems(utf8: seq<byte> -> bool, items: seq<Value>, c: seq<byte>)
    decreases items, 1
  {
    if items == [] then c == [] else
      exists a: seq<byte>, b: seq<byte> ::
        IsValue(utf8, items[0], a) && IsItems(utf8, items[1..], b) && c == a + b
  }

  ghost predicate IsEntry(utf8: seq<byte> -> bool, e: Entry, c: seq<byte>)
    decreases e, 1
  {
    exists k: seq<byte>, a: seq<byte> :: IsProperty(utf8, e.key, k) && IsValue(utf8, e.value, a) && c == k + a
  }

  ghost predicate IsEntries(utf8: seq<byte> -> bool, entries: seq<Entry>, c: seq<byte>)
    decreases entries, 1
  {
    if entries == [] then c == [] else
      exists a: seq<byte>, b: seq<byte> ::
        IsEntry(utf8, entries[0], a) && IsEntries(utf8, entries[1..], b) && c == a + b
  }

  ghost predicate IsObject(utf8: seq<byte> -> bool, entries: seq<Entry>, c: seq<byte>) {
    exists n: seq<byte>, b: seq<byte> ::
      IsNumber(W64, |entries|, n) && IsEntries(utf8, entries, b) && c == n + b
  }

  // ---- Numbers are read as they are written -----------------------------------------------------

  /** The word is a whole number of places of every septet but the last. */
  lemma PlaceDivides(w: Width, i: nat) returns (m: nat)
    requires i < Shifts(w)
    ensures m > 0 && Limit(w) == Pow128(i) * m
  {
    assert Pow128(2) == 0x4000;
    assert Pow128(4) == 0x1000_0000;
    assert Pow128(6) == 0x400_0000_0000;
    assert Pow128(8) == 0x100_0000_0000_0000;
    m := if w.W32? then [0x1_0000_0000, 0x200_0000, 0x4_0000, 0x800, 0x10][i]
    else [0x1_0000_0000_0000_0000, 0x200_0000_0000_0000, 0x4_0000_0000_0000, 0x800_0000_0000, 0x10_0000_0000,
          0x2000_0000, 0x40_0000, 0x8000, 0x100, 2][i];
  }

  lemma Regroup(p: nat, m: nat, q: nat, r: nat, word: nat)
    requires word == p * m
    ensures p * (m * q + r) == word * q + p * r
  {
  }

  lemma RoomAbove(p: nat, r: nat, m: nat)
    requires r < m
    ensures p * r + p <= p * m
  {
    assert p * (r + 1) <= p * m;
  }

  lemma Parts(k: nat, m: nat) returns (q: nat, r: nat)
    requires m > 0
    ensures k == m * q + r && r < m
  {
    q, r := k / m, k % m;
  }

  /** Below a place and above it, the bits of a word do not meet. */
  lemma NoCarry(x: nat, p: nat, k: nat, m: nat, word: nat)
    requires x < p && m > 0 && word == p * m
    ensures word > 0 && x % word + p * k % word == (x + p * k) % word
  {
    var q, r := Parts(k, m);
    Regroup(p, m, q, r, word);
    RoomAbove(p, r, m);
    NoCarryAt(x, p * k, p * r, q, word);
  }

  lemma NoCarryAt(x: nat, n: nat, low: nat, q: nat, word: nat)
    requires n == word * q + low && x + low < word
    ensures word > 0 && x % word + n % word == (x + n) % word
  {
    DivIs(n, word, q, low);
    DivIs(x, word, 0, x);
    DivIs(x + n, word, q, x + low);
  }

  lemma Spread(d: nat, more: nat, p: nat)
    ensures (d + 128 * more) * p == d * p + 128 * p * more
    ensures more * (128 * p) == 128 * p * more
    ensures d < 128 && p > 0 ==> d * p < 128 * p
  {
  }

  lemma SeptetsStep(w: Width, i: nat, b: byte, more: nat)
    requires i + 1 < Shifts(w)
    ensures Septet(w, i, b) + more * Pow128(i + 1) % Limit(w) == (b % 128 + 128 * more) * Pow128(i) % Limit(w)
  {
    var m := PlaceDivides(w, i + 1);
    var p := Pow128(i);
    assert Pow128(i + 1) == 128 * p;
    hide Pow128, Shifts, Limit;
    var d := b % 128;
    Spread(d, more, p);
    NoCarry(d * p, 128 * p, more, m, Limit(w));
  }

  lemma {:induction false} SeptetsRead(w: Width, i: nat, c: seq<byte>, t: seq<byte>)
    requires Terminated(c) && i + |c| <= Shifts(w)
    ensures LebFrom(w, i, c + t) == Parsed(Septets(c) * Pow128(i) % Limit(w), t)
    decreases |c|
  {
    hide Pow128, Septet, Limit, Shifts;
    var s := c + t;
    assert s[0] == c[0];
    if |c| == 1 {
      assert s[1..] == t;
      LastSeptet(w, i, c);
    } else {
      assert s[1..] == c[1..] + t;
      SeptetsRead(w, i + 1, c[1..], t);
      SeptetsStep(w, i, c[0], Septets(c[1..]));
    }
  }

  lemma LastSeptet(w: Width, i: nat, c: seq<byte>)
    requires |c| == 1
    ensures Septet(w, i, c[0]) == Septets(c) * Pow128(i) % Limit(w)
  {
    assert Septets(c) == c[0] % 128;
  }

  lemma {:induction false} SeptetsShape(w: Width, i: nat, s: seq<byte>) returns (c: seq<byte>)
    requires i <= Shifts(w) && LebFrom(w, i, s).Parsed?
    ensures s == c + LebFrom(w, i, s).rest && Terminated(c) && i + |c| <= Shifts(w)
    decreases s
  {
    hide Septet;
    HeadTail(s);
    if s[0] < 128 {
      c := [s[0]];
    } else {
      var d := SeptetsShape(w, i + 1, s[1..]);
      c := [s[0]] + d;
      AppendAssoc([s[0]], d, LebFrom(w, i, s).rest);
    }
  }

  lemma NumberReads(w: Width, n: nat, c: seq<byte>, t: seq<byte>)
    requires IsNumber(w, n, c)
    ensures Leb(w, c + t) == Parsed(n, t)
  {
    assert Pow128(0) == 1;
    SeptetsRead(w, 0, c, t);
  }

  lemma NumberShape(w: Width, s: seq<byte>) returns (c: seq<byte>)
    requires Leb(w, s).Parsed?
    ensures s == c + Leb(w, s).rest && IsNumber(w, Leb(w, s).value, c)
  {
    c := SeptetsShape(w, 0, s);
    assert Pow128(0) == 1;
    SeptetsRead(w, 0, c, Leb(w, s).rest);
  }

  // ---- Parts are read as they are written -------------------------------------------------------

  lemma BytesReads(x: seq<byte>, c: seq<byte>, t: seq<byte>)
    requires IsBytes(x, c)
    ensures Bytes(c + t) == Parsed(x, t)
  {
    hide Leb, Take, IsNumber;
    var n: seq<byte> :| IsNumber(W64, |x|, n) && c == n + x;
    AppendAssoc(n, x, t);
    NumberReads(W64, |x|, n, x + t);
    TakeOf(x, t);
  }

  lemma BytesShape(s: seq<byte>) returns (c: seq<byte>)
    requires Bytes(s).Parsed?
    ensures s == c + Bytes(s).rest && IsBytes(Bytes(s).value, c)
  {
    hide Leb, Take, IsNumber;
    var len := Leb(W64, s);
    var n := NumberShape(W64, s);
    TakeShape(len.value, len.rest);
    var x := Bytes(s).value;
    AppendAssoc(n, x, Bytes(s).rest);
    c := n + x;
  }

  lemma TakeShape(n: nat, s: seq<byte>)
    ensures Take(n, s).Parsed? ==> |Take(n, s).value| == n && s == Take(n, s).value + Take(n, s).rest
  {
  }

  lemma KeywordReads(utf8: seq<byte> -> bool, k: Keyword, c: seq<byte>, t: seq<byte>)
    requires IsKeyword(utf8, k, c)
    ensures KeywordFrom(utf8, c + t) == Parsed(k, t)
  {
    hide Leb, Take, IsNumber;
    match k {
      case System(number) => NumberReads(W64, number, c, t);
      case Other(name) =>
        var n: seq<byte> :| IsNumber(W64, 12 + |name|, n) && c == n + name;
        AppendAssoc(n, name, t);
        NumberReads(W64, 12 + |name|, n, name + t);
        TakeOf(name, t);
    }
  }

  lemma KeywordShape(utf8: seq<byte> -> bool, s: seq<byte>) returns (c: seq<byte>)
    requires KeywordFrom(utf8, s).Parsed?
    ensures s == c + KeywordFrom(utf8, s).rest && IsKeyword(utf8, KeywordFrom(utf8, s).value, c)
  {
    hide Leb, Take, IsNumber;
    var n := Leb(W64, s);
    c := NumberShape(W64, s);
    if n.value >= 12 {
      var name := Take(n.value - 12, n.rest);
      TakeShape(n.value - 12, n.rest);
      AppendAssoc(c, name.value, name.rest);
      c := c + name.value;
    }
  }

  lemma PropertyReads(utf8: seq<byte> -> bool, p: Property, c: seq<byte>, t: seq<byte>)
    requires IsProperty(utf8, p, c)
    ensures PropertyFrom(utf8, c + t) == Parsed(p, t)
  {
    hide Bytes, IsBytes;
    assert (c + t)[1..] == c[1..] + t;
    if p.Custom? {
      BytesReads(p.name, c[1..], t);
    } else {
      AppendEmpty(t);
    }
  }

  lemma PropertyShape(utf8: seq<byte> -> bool, s: seq<byte>) returns (c: seq<byte>)
    requires PropertyFrom(utf8, s).Parsed?
    ensures s == c + PropertyFrom(utf8, s).rest && IsProperty(utf8, PropertyFrom(utf8, s).value, c)
  {
    hide Bytes, IsBytes;
    c := [s[0]];
    if !IsKnown(s[0]) {
      var d := BytesShape(s[1..]);
      c := c + d;
      assert c[1..] == d;
    }
  }

  lemma ClassReads(marker: byte, b: BlobClass, c: seq<byte>, t: seq<byte>)
    requires IsClass(marker, b, c)
    ensures BlobClassFrom(marker, b.accountId, c + t) == Parsed(b, t)
  {
    hide Leb, IsNumber;
    match b {
      case Linked(_, _, documentId) =>
        assert (c + t)[1..] == c[1..] + t;
        NumberReads(W32, documentId, c[1..], t);
      case Reserved(_, expires) => NumberReads(W64, expires, c, t);
    }
  }

  lemma ClassShape(marker: byte, accountId: nat, s: seq<byte>) returns (c: seq<byte>)
    requires BlobClassFrom(marker, accountId, s).Parsed?
    ensures var p := BlobClassFrom(marker, accountId, s);
            s == c + p.rest && IsClass(marker, p.value, c) && p.value.accountId == accountId
  {
    hide Leb, IsNumber;
    if marker % 32 >= 16 {
      var d := NumberShape(W32, s[1..]);
      c := [s[0]] + d;
      assert c[1..] == d;
    } else {
      c := NumberShape(W64, s);
    }
  }

  lemma SectionReads(marker: byte, b: Option<BlobSection>, c: seq<byte>, t: seq<byte>)
    requires IsSection(marker, b, c)
    ensures SectionFrom(marker, c + t) == Parsed(b, t)
  {
    hide Leb, IsNumber;
    if b.None? {
      AppendEmpty(t);
    } else {
      var x := b.value;
      var o: seq<byte>, z: seq<byte> :| IsNumber(W64, x.offset, o) && IsNumber(W64, x.size, z) && c == o + z;
      AppendAssoc(o, z, t);
      NumberReads(W64, x.offset, o, z + t);
      NumberReads(W64, x.size, z, t);
    }
  }

  lemma SectionShape(marker: byte, s: seq<byte>) returns (c: seq<byte>)
    requires SectionFrom(marker, s).Parsed?
    ensures s == c + SectionFrom(marker, s).rest && IsSection(marker, SectionFrom(marker, s).value, c)
  {
    hide Leb, IsNumber;
    if marker % 16 == 0 {
      AppendEmpty(s);
      c := [];
    } else {
      var offset := Leb(W64, s);
      var o := NumberShape(W64, s);
      var z := NumberShape(W64, offset.rest);
      AppendAssoc(o, z, SectionFrom(marker, s).rest);
      c := o + z;
    }
  }

  lemma BlobTailReads(marker: byte, b: BlobId, c: seq<byte>, t: seq<byte>)
    requires IsBlobTail(marker, b, c)
    ensures BlobTail(marker, b.hash, c + t) == Parsed(b, t)
  {
    hide Leb, IsNumber, IsClass, IsSection, BlobClassFrom, SectionFrom;
    var a: seq<byte>, k: seq<byte>, z: seq<byte> :|
      IsNumber(W32, b.class_.accountId, a) && IsClass(marker, b.class_, k) && IsSection(marker, b.section, z)
      && c == a + (k + z);
    AppendAssoc(a, k + z, t);
    AppendAssoc(k, z, t);
    NumberReads(W32, b.class_.accountId, a, k + (z + t));
    ClassReads(marker, b.class_, k, z + t);
    SectionReads(marker, b.section, z, t);
  }

  lemma BlobTailShape(marker: byte, hash: seq<byte>, s: seq<byte>) returns (c: seq<byte>)
    requires BlobTail(marker, hash, s).Parsed?
    ensures var p := BlobTail(marker, hash, s);
            s == c + p.rest && IsBlobTail(marker, p.value, c) && p.value.hash == hash
  {
    hide Leb, IsNumber, IsClass, IsSection, BlobClassFrom, SectionFrom;
    var account := Leb(W32, s);
    var class_ := BlobClassFrom(marker, account.value, account.rest);
    var a := NumberShape(W32, s);
    var k := ClassShape(marker, account.value, account.rest);
    var z := SectionShape(marker, class_.rest);
    var rest := BlobTail(marker, hash, s).rest;
    AppendAssoc(k, z, rest);
    AppendAssoc(a, k + z, rest);
    c := a + (k + z);
  }

  lemma BlobIdReads(b: BlobId, c: seq<byte>, t: seq<byte>)
    requires IsBlobId(b, c)
    ensures BlobIdFrom(c + t) == Parsed(b, t)
  {
    hide IsBlobTail, BlobTail;
    var s := c + t;
    assert s[1..][..32] == c[1..33];
    assert s[1..][32..] == c[33..] + t;
    BlobTailReads(c[0], b, c[33..], t);
  }

  lemma BlobIdShape(s: seq<byte>) returns (c: seq<byte>)
    requires BlobIdFrom(s).Parsed?
    ensures s == c + BlobIdFrom(s).rest && IsBlobId(BlobIdFrom(s).value, c)
  {
    hide IsBlobTail, BlobTail;
    var d := BlobTailShape(s[0], s[1..][..32], s[1..][32..]);
    c := s[..33] + d;
    assert s[1..][..32] == s[1..33] == c[1..33];
    assert s[1..][32..] == s[33..];
    assert c[33..] == d;
  }

  lemma BigEndianStep(r: seq<byte>, k: nat)
    requires k < |r|
    ensures BigEndian(r[..k + 1]) == BigEndian(r[..k]) * 256 + r[k]
  {
    assert r[..k + 1][..k] == r[..k];
  }

  lemma BigEndianIsRights(r: seq<byte>)
    requires |r| == 8
    ensures IsRights(BigEndian(r), r)
  {
    hide BigEndian;
    BigEndianStart(r);
    BigEndianStep(r, 0);
    BigEndianStep(r, 1);
    BigEndianStep(r, 2);
    BigEndianStep(r, 3);
    BigEndianStep(r, 4);
    BigEndianStep(r, 5);
    BigEndianStep(r, 6);
    BigEndianStep(r, 7);
    assert r[..8] == r;
  }

  lemma BigEndianStart(r: seq<byte>)
    ensures BigEndian(r[..0]) == 0
  {
  }

  lemma GrantReads(g: AclGrant, c: seq<byte>, t: seq<byte>)
    requires IsGrant(g, c)
    ensures GrantFrom(c + t) == Parsed(g, t)
  {
    hide Leb, IsNumber, Take, BigEndian;
    var a: seq<byte>, r: seq<byte> :| IsNumber(W32, g.accountId, a) && IsRights(g.grants, r) && c == a + r;
    AppendAssoc(a, r, t);
    NumberReads(W32, g.accountId, a, r + t);
    TakeOf(r, t);
    BigEndianIsRights(r);
  }

  lemma GrantShape(s: seq<byte>) returns (c: seq<byte>)
    requires GrantFrom(s).Parsed?
    ensures s == c + GrantFrom(s).rest && IsGrant(GrantFrom(s).value, c)
  {
    hide Leb, IsNumber, Take, BigEndian, IsRights;
    var account := Leb(W32, s);
    var a := NumberShape(W32, s);
    var r := Take(8, account.rest).value;
    TakeShape(8, account.rest);
    BigEndianIsRights(r);
    AppendAssoc(a, r, GrantFrom(s).rest);
    c := a + r;
  }

  lemma {:induction false} GrantsReads(gs: seq<AclGrant>, c: seq<byte>, t: seq<byte>)
    requires IsGrants(gs, c)
    ensures GrantsFrom(|gs|, c + t) == Parsed(gs, t)
    decreases |gs|
  {
    hide GrantFrom, IsGrant;
    if gs == [] {
      AppendEmpty(t);
    } else {
      var a: seq<byte>, b: seq<byte> :| IsGrant(gs[0], a) && IsGrants(gs[1..], b) && c == a + b;
      AppendAssoc(a, b, t);
      GrantReads(gs[0], a, b + t);
      GrantsReads(gs[1..], b, t);
      HeadTail(gs);
    }
  }

  lemma {:induction false} GrantsShape(n: nat, s: seq<byte>) returns (c: seq<byte>)
    requires GrantsFrom(n, s).Parsed?
    ensures var p := GrantsFrom(n, s);
            |p.value| == n && s == c + p.rest && IsGrants(p.value, c)
    decreases n
  {
    hide GrantFrom, IsGrant;
    if n == 0 {
      AppendEmpty(s);
      c := [];
    } else {
      var grant := GrantFrom(s);
      var a := GrantShape(s);
      var b := GrantsShape(n - 1, grant.rest);
      var gs := GrantsFrom(n, s).value;
      assert gs[0] == grant.value && gs[1..] == GrantsFrom(n - 1, grant.rest).value;
      AppendAssoc(a, b, GrantsFrom(n, s).rest);
      c := a + b;
    }
  }

  lemma AclReads(gs: seq<AclGrant>, c: seq<byte>, t: seq<byte>)
    requires IsAcl(gs, c)
    ensures AclFrom(c + t) == Parsed(Acl(gs), t)
  {
    hide Leb, IsNumber, GrantsFrom, IsGrants;
    var n: seq<byte>, b: seq<byte> :| IsNumber(W64, |gs|, n) && IsGrants(gs, b) && c == n + b;
    AppendAssoc(n, b, t);
    NumberReads(W64, |gs|, n, b + t);
    GrantsReads(gs, b, t);
  }

  lemma AclShape(s: seq<byte>) returns (c: seq<byte>)
    requires AclFrom(s).Parsed?
    ensures AclFrom(s).value.Acl? && s == c + AclFrom(s).rest && IsAcl(AclFrom(s).value.acls, c)
  {
    hide Leb, IsNumber, GrantsFrom, IsGrants;
    var len := Leb(W64, s);
    var n := NumberShape(W64, s);
    var b := GrantsShape(len.value, len.rest);
    AppendAssoc(n, b, AclFrom(s).rest);
    c := n + b;
  }

  // ---- Values are read as they are written ------------------------------------------------------

  lemma LeafReads(utf8: seq<byte> -> bool, tag: byte, v: Value, c: seq<byte>, t: seq<byte>)
    requires IsLeaf(utf8, tag, v, c)
    ensures LeafFrom(utf8, tag, c + t) == Parsed(v, t)
  {
    hide Leb, Bytes, BlobIdFrom, KeywordFrom, AclFrom, Utc.FromTimestamp, IsNumber, IsBytes, IsBlobId, IsKeyword, IsAcl;
    match v {
      case Text(text) => BytesReads(text, c, t);
      case UnsignedInt(number) => NumberReads(W64, number, c, t);
      case Id(id) => NumberReads(W64, id, c, t);
      case Date(date) =>
        var n: nat :| IsNumber(W64, n, c) && date == Utc.FromTimestamp(
          if n < 0x8000_0000_0000_0000 then n else n - 0x1_0000_0000_0000_0000);
        NumberReads(W64, n, c, t);
      case BlobRef(blobId) => BlobIdReads(blobId, c, t);
      case KeywordValue(keyword) => KeywordReads(utf8, keyword, c, t);
      case Acl(acls) => AclReads(acls, c, t);
      case Blob(blob) => BytesReads(blob, c, t);
      case _ => AppendEmpty(t);
    }
  }

  lemma LeafShape(utf8: seq<byte> -> bool, tag: byte, s: seq<byte>) returns (c: seq<byte>)
    requires LeafFrom(utf8, tag, s).Parsed?
    ensures var p := LeafFrom(utf8, tag, s);
            s == c + p.rest && IsLeaf(utf8, tag, p.value, c)
  {
    hide Leb, Bytes, BlobIdFrom, KeywordFrom, AclFrom, Utc.FromTimestamp, IsNumber, IsBytes, IsBlobId, IsKeyword, IsAcl;
    if tag == 0 || tag == 7 {
      c := BytesShape(s);
    } else if tag == 1 || tag == 4 || tag == 5 {
      c := NumberShape(W64, s);
    } else if tag == 6 {
      c := BlobIdShape(s);
    } else if tag == 8 {
      c := KeywordShape(utf8, s);
    } else if tag == 11 {
      c := AclShape(s);
    } else {
      AppendEmpty(s);
      c := [];
    }
  }

  lemma {:induction false} ValueReads(utf8: seq<byte> -> bool, v: Value, c: seq<byte>, t: seq<byte>)
    requires IsValue(utf8, v, c)
    ensures ValueFrom(utf8, c + t) == Parsed(v, t)
    decreases v, 0
  {
    hide Leb, LeafFrom, ItemsFrom, EntriesFrom, IsNumber, IsLeaf, IsItems, IsEntries;
    assert (c + t)[1..] == c[1..] + t;
    match v {
      case List(items) =>
        var n: seq<byte>, b: seq<byte> :| IsNumber(W64, |items|, n) && IsItems(utf8, items, b) && c[1..] == n + b;
        AppendAssoc(n, b, t);
        NumberReads(W64, |items|, n, b + t);
        ItemsReads(utf8, items, b, t);
      case Object(entries) =>
        var n: seq<byte>, b: seq<byte> :|
          IsNumber(W64, |entries|, n) && IsEntries(utf8, entries, b) && c[1..] == n + b;
        AppendAssoc(n, b, t);
        NumberReads(W64, |entries|, n, b + t);
        EntriesReads(utf8, entries, b, t);
      case _ =>
        LeafTags(utf8, c[0], v, c[1..]);
        LeafReads(utf8, c[0], v, c[1..], t);
    }
  }

  lemma LeafTags(utf8: seq<byte> -> bool, tag: byte, v: Value, c: seq<byte>)
    ensures IsLeaf(utf8, tag, v, c) ==> tag != 9 && tag != 10 && !v.List? && !v.Object?
  {
    hide IsText, IsNumber, IsDate, IsBlobId, IsBytes, IsKeyword, IsAcl;
  }

  lemma {:induction false} ItemsReads(utf8: seq<byte> -> bool, items: seq<Value>, c: seq<byte>, t: seq<byte>)
    requires IsItems(utf8, items, c)
    ensures ItemsFrom(utf8, |items|, c + t) == Parsed(items, t)
    decreases items, 1
  {
    hide ValueFrom, IsValue;
    if items == [] {
      AppendEmpty(t);
    } else {
      var a: seq<byte>, b: seq<byte> :|
        IsValue(utf8, items[0], a) && IsItems(utf8, items[1..], b) && c == a + b;
      AppendAssoc(a, b, t);
      ValueReads(utf8, items[0], a, b + t);
      ItemsReads(utf8, items[1..], b, t);
      HeadTail(items);
    }
  }

  lemma {:induction false} EntryReads(utf8: seq<byte> -> bool, e: Entry, c: seq<byte>, t: seq<byte>)
    requires IsEntry(utf8, e, c)
    ensures var key := PropertyFrom(utf8, c + t);
            key.Parsed? && key.value == e.key && ValueFrom(utf8, key.rest) == Parsed(e.value, t)
    decreases e, 1
  {
    hide ValueFrom, IsValue, PropertyFrom, IsProperty;
    var k: seq<byte>, a: seq<byte> :| IsProperty(utf8, e.key, k) && IsValue(utf8, e.value, a) && c == k + a;
    AppendAssoc(k, a, t);
    PropertyReads(utf8, e.key, k, a + t);
    ValueReads(utf8, e.value, a, t);
  }

  lemma {:induction false} EntriesReads(utf8: seq<byte> -> bool, entries: seq<Entry>, c: seq<byte>, t: seq<byte>)
    requires IsEntries(utf8, entries, c)
    ensures EntriesFrom(utf8, |entries|, c + t) == Parsed(entries, t)
    decreases entries, 1
  {
    hide ValueFrom, PropertyFrom, IsEntry;
    if entries == [] {
      AppendEmpty(t);
    } else {
      var a: seq<byte>, b: seq<byte> :|
        IsEntry(utf8, entries[0], a) && IsEntries(utf8, entries[1..], b) && c == a + b;
      AppendAssoc(a, b, t);
      EntryReads(utf8, entries[0], a, b + t);
      EntriesReads(utf8, entries[1..], b, t);
      HeadTail(entries);
    }
  }

  lemma {:induction false} ValueShape(utf8: seq<byte> -> bool, s: seq<byte>) returns (c: seq<byte>)
    requires ValueFrom(utf8, s).Parsed?
    ensures s == c + ValueFrom(utf8, s).rest && IsValue(utf8, ValueFrom(utf8, s).value, c)
    decreases |s|, 0
  {
    hide Leb, LeafFrom, ItemsFrom, EntriesFrom, IsNumber, IsLeaf, IsItems, IsEntries;
    var body := s[1..];
    var d: seq<byte>;
    if s[0] == 9 {
      var len := Leb(W64, body);
      var n := NumberShape(W64, body);
      var b := ItemsShape(utf8, len.value, len.rest);
      AppendAssoc(n, b, ValueFrom(utf8, s).rest);
      d := n + b;
    } else if s[0] == 10 {
      var len := Leb(W64, body);
      var n := NumberShape(W64, body);
      var b := EntriesShape(utf8, len.value, len.rest);
      AppendAssoc(n, b, ValueFrom(utf8, s).rest);
      d := n + b;
    } else {
      d := LeafShape(utf8, s[0], body);
      LeafTags(utf8, s[0], ValueFrom(utf8, s).value, d);
    }
    c := [s[0]] + d;
    assert c[1..] == d;
  }

  lemma {:induction false} ItemsShape(utf8: seq<byte> -> bool, n: nat, s: seq<byte>) returns (c: seq<byte>)
    requires ItemsFrom(utf8, n, s).Parsed?
    ensures var p := ItemsFrom(utf8, n, s);
            |p.value| == n && s == c + p.rest && IsItems(utf8, p.value, c)
    decreases |s|, n + 1
  {
    hide ValueFrom, IsValue;
    if n == 0 {
      AppendEmpty(s);
      c := [];
    } else {
      var item := ValueFrom(utf8, s);
      var a := ValueShape(utf8, s);
      var b := ItemsShape(utf8, n - 1, item.rest);
      var items := ItemsFrom(utf8, n, s).value;
      assert items[0] == item.value && items[1..] == ItemsFrom(utf8, n - 1, item.rest).value;
      AppendAssoc(a, b, ItemsFrom(utf8, n, s).rest);
      c := a + b;
    }
  }

  lemma {:induction false} EntryShape(utf8: seq<byte> -> bool, s: seq<byte>) returns (c: seq<byte>)
    requires PropertyFrom(utf8, s).Parsed? && ValueFrom(utf8, PropertyFrom(utf8, s).rest).Parsed?
    ensures var key := PropertyFrom(utf8, s);
            var value := ValueFrom(utf8, key.rest);
            s == c + value.rest && IsEntry(utf8, Entry(key.value, value.value), c)
    decreases |s|, 1
  {
    hide ValueFrom, IsValue, PropertyFrom, IsProperty;
    var key := PropertyFrom(utf8, s);
    var k := PropertyShape(utf8, s);
    var a := ValueShape(utf8, key.rest);
    AppendAssoc(k, a, ValueFrom(utf8, key.rest).rest);
    c := k + a;
  }

  lemma {:induction false} EntriesShape(utf8: seq<byte> -> bool, n: nat, s: seq<byte>) returns (c: seq<byte>)
    requires EntriesFrom(utf8, n, s).Parsed?
    ensures var p := EntriesFrom(utf8, n, s);
            |p.value| == n && s == c + p.rest && IsEntries(utf8, p.value, c)
    decreases |s|, n + 2
  {
    hide ValueFrom, PropertyFrom, IsEntry;
    if n == 0 {
      AppendEmpty(s);
      c := [];
    } else {
      var key := PropertyFrom(utf8, s);
      var value := ValueFrom(utf8, key.rest);
      var a := EntryShape(utf8, s);
      var b := EntriesShape(utf8, n - 1, value.rest);
      var entries := EntriesFrom(utf8, n, s).value;
      assert entries[0] == Entry(key.value, value.value);
      assert entries[1..] == EntriesFrom(utf8, n - 1, value.rest).value;
      AppendAssoc(a, b, EntriesFrom(utf8, n, s).rest);
      c := a + b;
    }
  }

  lemma ObjectReads(utf8: seq<byte> -> bool, entries: seq<Entry>, c: seq<byte>, t: seq<byte>)
    requires IsObject(utf8, entries, c)
    ensures ObjectFrom(utf8, c + t) == Parsed(entries, t)
  {
    hide Leb, IsNumber, EntriesFrom, IsEntries;
    var n: seq<byte>, b: seq<byte> :| IsNumber(W64, |entries|, n) && IsEntries(utf8, entries, b) && c == n + b;
    AppendAssoc(n, b, t);
    NumberReads(W64, |entries|, n, b + t);
    EntriesReads(utf8, entries, b, t);
  }

  lemma ObjectShape(utf8: seq<byte> -> bool, s: seq<byte>) returns (c: seq<byte>)
    requires ObjectFrom(utf8, s).Parsed?
    ensures s == c + ObjectFrom(utf8, s).rest && IsObject(utf8, ObjectFrom(utf8, s).value, c)
  {
    hide Leb, IsNumber, EntriesFrom, IsEntries;
    var len := Leb(W64, s);
    var n := NumberShape(W64, s);
    var b := EntriesShape(utf8, len.value, len.rest);
    AppendAssoc(n, b, ObjectFrom(utf8, s).rest);
    c := n + b;
  }

  /** A record is read from a stream exactly when the stream begins with bytes that stand for it. */
  lemma ObjectIsFormat(utf8: seq<byte> -> bool, s: seq<byte>, entries: seq<Entry>, t: seq<byte>)
    ensures ObjectFrom(utf8, s) == Parsed(entries, t)
            <==> exists c: seq<byte> :: IsObject(utf8, entries, c) && s == c + t
  {
    hide ObjectFrom, IsObject;
    if ObjectFrom(utf8, s) == Parsed(entries, t) {
      var c := ObjectShape(utf8, s);
    }
    forall c: seq<byte> | IsObject(utf8, entries, c) && s == c + t
      ensures ObjectFrom(utf8, s) == Parsed(entries, t)
    {
      ObjectReads(utf8, entries, c, t);
    }
  }

  /** A value is read from a stream exactly when the stream begins with bytes that stand for it. */
  lemma ValueIsFormat(utf8: seq<byte> -> bool, s: seq<byte>, v: Value, t: seq<byte>)
    ensures ValueFrom(utf8, s) == Parsed(v, t) <==> exists c: seq<byte> :: IsValue(utf8, v, c) && s == c + t
  {
    hide ValueFrom, IsValue;
    if ValueFrom(utf8, s) == Parsed(v, t) {
      var c := ValueShape(utf8, s);
    }
    forall c: seq<byte> | IsValue(utf8, v, c) && s == c + t
      ensures ValueFrom(utf8, s) == Parsed(v, t)
    {
      ValueReads(utf8, v, c, t);
    }
  }

  // ---- Single bytes -----------------------------------------------------------------------------

  /** A keyword other than a system one: twelve more than its length, then its name. */
  lemma NamedKeyword(utf8: seq<byte> -> bool, name: seq<byte>, t: seq<byte>)
    requires |name| < 116 && utf8(name)
    ensures KeywordFrom(utf8, [12 + |name|] + name + t) == Parsed(Other(name), t)
  {
    OneByte(12 + |name|);
    hide IsNumber;
    KeywordReads(utf8, Other(name), [12 + |name|] + name, t);
  }

  /** A system keyword: a single byte below twelve. */
  lemma SystemKeyword(utf8: seq<byte> -> bool, n: byte, t: seq<byte>)
    requires n < 128
    ensures KeywordFrom(utf8, [n] + t) == Parsed(System(n), t) <==> n < 12
  {
    OneByte(n);
    NumberReads(W64, n, [n], t);
  }

  lemma OneByte(n: byte)
    requires n < 128
    ensures IsNumber(W64, n, [n])
  {
    assert Septets([n]) == n;
  }
}
