/** Decoding undoes encoding, for every string. */
module Utf7RoundTrip {
  import opened Basics
  import opened Utf7Model

  /**
   How the decoder stands after reading what the encoder has written: it lags behind by at most
   one code unit, of which it has all but the last `e.bits` bits.
   */
  ghost predicate Sync(e: Encoder, d: Decoder, pending: seq<u16>) {
    && ValidEncoder(e)
    && (if !e.shifted then d == Plain && pending == []
        else d.Shifted? &&
             if e.bits == 0 then d.bits == 0 && pending == []
             else |pending| == 1 &&
                  var w := pending[0];
                  if e.bits == 2 then d.bits == 14 && d.v % 0x4000 == w / 4 && e.u % 4 == w % 4
                  else d.bits == 12 && d.v % 0x1000 == w / 16 && e.u % 16 == w % 16)
  }

  // ---- Words ------------------------------------------------------------------------------------

  /** Shifting a digit in keeps the low bits and puts the digit below them. */
  lemma ShiftDigitLow(v: nat, m: nat, n: nat, i: nat)
    requires m > 0 && m * n == 0x400_0000 && i < 64
    ensures ShiftDigit(v, i) % (64 * m) == v % m * 64 + i
  {
    var a := v % 0x400_0000;
    var t, q, r := v / 0x400_0000, a / m, a % m;
    assert v == (t * n + q) * m + r by {
      assert t * 0x400_0000 == t * n * m;
    }
    DivModOf(t * n + q, m, r);
    assert ShiftDigit(v, i) == q * (64 * m) + (r * 64 + i);
    DivModOf(q, 64 * m, r * 64 + i);
  }

  /** A word whose low bits are `hi` above `lo`: what is read from it above `lo`. */
  lemma ReadAbove(v: nat, unit: nat, m: nat, hi: nat, lo: nat)
    requires unit > 0 && m > 0 && lo < unit && hi < m && v % (m * unit) == hi * unit + lo
    ensures v / unit % m == hi && v % unit == lo
  {
    var q := v / (m * unit);
    assert v == (q * m + hi) * unit + lo;
    DivModOf(q * m + hi, unit, lo);
    DivModOf(q, m, hi);
  }

  // ---- Reading digits ---------------------------------------------------------------------------

  lemma ReadDigit(bits: nat, v: nat, i: nat)
    requires bits < 16 && i < 64
    ensures DecodeChar(Shifted(bits, v), Digit(i)) == DecodeDigit(bits, v, i)
  {
    RankOfDigit(i);
  }

  lemma DecodeOne(d: Decoder, c: char, r: Decoded)
    requires ValidDecoder(d) && DecodeChar(d, c) == r && r.Decoded?
    ensures DecodeChars(d, [c]) == r
  {
    hide DecodeChar;
    assert [c][1..] == "";
    AppendEmpty(r.out);
  }

  /** A digit that completes nothing: the low bits grow by it. */
  lemma ReadMore(bits: nat, v: nat, m: nat, n: nat, i: nat) returns (v': nat)
    requires bits < 10 && m > 0 && m * n == 0x400_0000 && i < 64
    ensures DecodeChars(Shifted(bits, v), [Digit(i)]) == Decoded(Shifted(bits + 6, v'), [])
    ensures v' % (64 * m) == v % m * 64 + i
  {
    v' := ShiftDigit(v, i);
    ShiftDigitLow(v, m, n, i);
    ReadDigit(bits, v, i);
    hide DecodeChar, ShiftDigit;
    DecodeOne(Shifted(bits, v), Digit(i), Decoded(Shifted(bits + 6, v'), []));
  }

  /** A digit that completes the code unit `hi` and leaves `lo`. */
  lemma ReadAndEmit(bits: nat, v: nat, m: nat, n: nat, i: nat, unit: nat, hi: u16, lo: nat) returns (v': nat)
    requires 10 <= bits < 16 && m * n == 0x400_0000 && i < 64
    requires unit == Pow2(bits - 10) && 64 * m == 0x1_0000 * unit
    requires lo < unit && v % m * 64 + i == hi * unit + lo
    ensures DecodeChars(Shifted(bits, v), [Digit(i)]) == Decoded(Shifted(bits - 10, v'), [hi])
    ensures v' % unit == lo
  {
    v' := ShiftDigit(v, i);
    ShiftDigitLow(v, m, n, i);
    ReadAbove(v', unit, 0x1_0000, hi, lo);
    ReadDigit(bits, v, i);
    hide DecodeChar, ShiftDigit;
    DecodeOne(Shifted(bits, v), Digit(i), Decoded(Shifted(bits - 10, v'), [hi]));
  }

  lemma Chain(d: Decoder, a: string, d1: Decoder, out: seq<u16>, b: string, d2: Decoder, more: seq<u16>)
    requires ValidDecoder(d) && DecodeChars(d, a) == Decoded(d1, out) && DecodeChars(d1, b) == Decoded(d2, more)
    ensures DecodeChars(d, a + b) == Decoded(d2, out + more)
  {
    hide DecodeChars;
    DecodeAppend(d, a, b, d1, out);
  }

  /** Nothing pending: two digits give the top twelve bits. */
  lemma ReadTwo(v: nat, a: nat, b: nat) returns (v': nat)
    requires a < 64 && b < 64
    ensures DecodeChars(Shifted(0, v), [Digit(a)] + [Digit(b)]) == Decoded(Shifted(12, v'), [])
    ensures v' % 0x1000 == a * 64 + b
  {
    hide Digit, DecodeChars;
    var v1 := ReadMore(0, v, 1, 0x400_0000, a);
    v' := ReadMore(6, v1, 64, 0x10_0000, b);
    Chain(Shifted(0, v), [Digit(a)], Shifted(6, v1), [], [Digit(b)], Shifted(12, v'), []);
  }

  /** Four bits `l` pending: three digits complete the pending unit and leave two bits of the next. */
  lemma ReadThreeAfterFour(v: nat, h: nat, l: nat, p: nat, q: nat, r: nat) returns (v': nat)
    requires h < 0x1000 && v % 0x1000 == h && l < 16 && p < 4 && q < 64 && r < 64
    ensures DecodeChars(Shifted(12, v), [Digit(4 * l + p)] + [Digit(q)] + [Digit(r)])
         == Decoded(Shifted(14, v'), [16 * h + l])
    ensures v' % 0x4000 == (p * 64 + q) * 64 + r
  {
    PowerValues();
    hide Digit, DecodeChars, Pow2;
    var v1 := ReadAndEmit(12, v, 0x1000, 0x4000, 4 * l + p, 4, 16 * h + l, p);
    var v2 := ReadMore(2, v1, 4, 0x100_0000, q);
    v' := ReadMore(8, v2, 256, 0x4_0000, r);
    Chain(Shifted(12, v), [Digit(4 * l + p)], Shifted(2, v1), [16 * h + l], [Digit(q)], Shifted(8, v2), []);
    Chain(Shifted(12, v), [Digit(4 * l + p)] + [Digit(q)], Shifted(8, v2), [16 * h + l] + [],
          [Digit(r)], Shifted(14, v'), []);
  }

  /** Two bits `l` pending: three digits complete both units. */
  lemma ReadThreeAfterTwo(v: nat, h: nat, l: nat, p: nat, q: nat, r: nat) returns (v': nat)
    requires h < 0x4000 && v % 0x4000 == h && l < 4 && p < 16 && q < 64 && r < 64
    ensures DecodeChars(Shifted(14, v), [Digit(16 * l + p)] + [Digit(q)] + [Digit(r)])
         == Decoded(Shifted(0, v'), [4 * h + l] + [(p * 64 + q) * 64 + r])
  {
    PowerValues();
    hide Digit, DecodeChars, Pow2;
    var x := (p * 64 + q) * 64 + r;
    var v1 := ReadAndEmit(14, v, 0x4000, 0x1000, 16 * l + p, 16, 4 * h + l, p);
    var v2 := ReadMore(4, v1, 16, 0x40_0000, q);
    v' := ReadAndEmit(10, v2, 0x400, 0x1_0000, r, 1, x, 0);
    Chain(Shifted(14, v), [Digit(16 * l + p)], Shifted(4, v1), [4 * h + l], [Digit(q)], Shifted(10, v2), []);
    AppendEmpty([4 * h + l]);
    Chain(Shifted(14, v), [Digit(16 * l + p)] + [Digit(q)], Shifted(10, v2), [4 * h + l],
          [Digit(r)], Shifted(0, v'), [x]);
  }

  // ---- Writing digits ---------------------------------------------------------------------------

  lemma SixBitsOf(u: nat, j: nat, unit: nat, k: nat, i: nat, lo: nat)
    requires unit == Pow2(j) && i < 64 && lo < unit && u == (k * 64 + i) * unit + lo
    ensures SixBits(u, j) == i
  {
    DivModOf(k * 64 + i, unit, lo);
    DivModOf(k, 64, i);
  }

  lemma WriteOne(u: nat, bits: nat, i: nat)
    requires bits >= 6 && SixBits(u, bits - 6) == i
    ensures Digits(u, bits) == [Digit(i)] + Digits(u, bits - 6)
  {
  }

  lemma WriteNone(u: nat, bits: nat)
    requires bits < 6
    ensures Digits(u, bits) == ""
  {
  }

  /** Two digits from a word with sixteen bits to write. */
  lemma WriteTwo(k: nat, a: nat, b: nat, c: nat)
    requires a < 64 && b < 64 && c < 16
    ensures Digits(((k * 64 + a) * 64 + b) * 16 + c, 16) == [Digit(a)] + [Digit(b)]
  {
    var u := ((k * 64 + a) * 64 + b) * 16 + c;
    PowerValues();
    hide Digits, Digit, SixBits, Pow2;
    SixBitsOf(u, 10, 0x400, k, a, b * 16 + c);
    SixBitsOf(u, 4, 16, k * 64 + a, b, c);
    WriteOne(u, 16, a);
    WriteOne(u, 10, b);
    WriteNone(u, 4);
    AppendEmpty([Digit(b)]);
  }

  /** Three digits, with `rest` bits below them. */
  lemma WriteThree(k: nat, a: nat, b: nat, c: nat, s: nat, rest: nat)
    requires a < 64 && b < 64 && c < 64 && ((rest == 0 && s == 0) || (rest == 2 && s < 4))
    ensures var u := (((k * 64 + a) * 64 + b) * 64 + c) * (if rest == 0 then 1 else 4) + s;
            Digits(u, 18 + rest) == [Digit(a)] + [Digit(b)] + [Digit(c)]
  {
    var unit := if rest == 0 then 1 else 4;
    var u := (((k * 64 + a) * 64 + b) * 64 + c) * unit + s;
    PowerValues();
    hide Digits, Digit, SixBits, Pow2;
    SixBitsOf(u, 12 + rest, 0x1000 * unit, k, a, (b * 64 + c) * unit + s);
    SixBitsOf(u, 6 + rest, 64 * unit, k * 64 + a, b, c * unit + s);
    SixBitsOf(u, rest, unit, (k * 64 + a) * 64 + b, c, s);
    WriteOne(u, 18 + rest, a);
    WriteOne(u, 12 + rest, b);
    WriteOne(u, 6 + rest, c);
    WriteNone(u, rest);
    AppendEmpty([Digit(c)]);
    AppendAssoc([Digit(a)], [Digit(b)], [Digit(c)]);
  }

  // ---- Encoder and decoder in step --------------------------------------------------------------

  /** A code unit as two digits and four bits. */
  lemma SplitZero(x: u16) returns (a: nat, b: nat, c: nat)
    ensures a < 64 && b < 64 && c < 16 && x == (a * 64 + b) * 16 + c
  {
    var y := x / 16;
    a, b, c := y / 64, y % 64, x % 16;
  }

  /** A code unit as two bits, two digits and two bits. */
  lemma SplitFour(x: u16) returns (p: nat, q: nat, r: nat, s: nat)
    ensures p < 4 && q < 64 && r < 64 && s < 4 && x == ((p * 64 + q) * 64 + r) * 4 + s
  {
    var y := x / 4;
    var z := y / 64;
    p, q, r, s := z / 64, z % 64, y % 64, x % 4;
  }

  /** A code unit as four bits and two digits. */
  lemma SplitTwo(x: u16) returns (p: nat, q: nat, r: nat)
    ensures p < 16 && q < 64 && r < 64 && x == (p * 64 + q) * 64 + r
  {
    var z := x / 64;
    p, q, r := z / 64, z % 64, x % 64;
  }

  /** The bits of a word above its low ones, as far as they stay in the next word. */
  lemma LowSplit(u: nat, unit: nat, l: nat) returns (k: nat)
    requires unit == 4 || unit == 16
    requires u % unit == l
    ensures u % 0x1_0000 == k * unit + l
  {
    var y := u % 0x1_0000;
    k := y / unit;
    if unit == 4 {
      assert u == u / 0x1_0000 * 0x4000 * 4 + y;
      assert y == k * 4 + y % 4;
      DivModOf(u / 0x1_0000 * 0x4000 + k, 4, y % 4);
    } else {
      assert u == u / 0x1_0000 * 0x1000 * 16 + y;
      assert y == k * 16 + y % 16;
      DivModOf(u / 0x1_0000 * 0x1000 + k, 16, y % 16);
    }
  }

  lemma SyncFromZero(u: nat, v: nat, x: u16) returns (d': Decoder)
    ensures DecodeChars(Shifted(0, v), Digits(ShiftUnit(u, x), 16)) == Decoded(d', [])
    ensures Sync(Encoder(true, 4, ShiftUnit(u, x)), d', [x])
  {
    hide Digits, Digit, DecodeChars;
    var a, b, c := SplitZero(x);
    var k := u % 0x1_0000;
    WriteTwo(k, a, b, c);
    var v' := ReadTwo(v, a, b);
    d' := Shifted(12, v');
    assert ShiftUnit(u, x) == ((k * 64 + a) * 64 + b) * 16 + c;
    DivModOf((k * 64 + a) * 64 + b, 16, c);
    DivModOf(a * 64 + b, 16, c);
  }

  lemma SyncFromFour(u: nat, v: nat, w: u16, x: u16) returns (d': Decoder)
    requires v % 0x1000 == w / 16 && u % 16 == w % 16
    ensures DecodeChars(Shifted(12, v), Digits(ShiftUnit(u, x), 20)) == Decoded(d', [w])
    ensures Sync(Encoder(true, 2, ShiftUnit(u, x)), d', [x])
  {
    hide Digits, Digit, DecodeChars;
    var h, l := w / 16, w % 16;
    var p, q, r, s := SplitFour(x);
    var k := LowSplit(u, 16, l);
    WriteThree(k, 4 * l + p, q, r, s, 2);
    var v' := ReadThreeAfterFour(v, h, l, p, q, r);
    d' := Shifted(14, v');
    var top := ((k * 64 + (4 * l + p)) * 64 + q) * 64 + r;
    assert ShiftUnit(u, x) == top * 4 + s;
    DivModOf(top, 4, s);
    DivModOf((p * 64 + q) * 64 + r, 4, s);
  }

  lemma SyncFromTwo(u: nat, v: nat, w: u16, x: u16) returns (d': Decoder)
    requires v % 0x4000 == w / 4 && u % 4 == w % 4
    ensures DecodeChars(Shifted(14, v), Digits(ShiftUnit(u, x), 18)) == Decoded(d', [w] + [x])
    ensures Sync(Encoder(true, 0, ShiftUnit(u, x)), d', [])
  {
    hide Digits, Digit, DecodeChars;
    var h, l := w / 4, w % 4;
    var p, q, r := SplitTwo(x);
    var k := LowSplit(u, 4, l);
    WriteThree(k, 16 * l + p, q, r, 0, 0);
    var v' := ReadThreeAfterTwo(v, h, l, p, q, r);
    d' := Shifted(0, v');
    assert ShiftUnit(u, x) == (((k * 64 + (16 * l + p)) * 64 + q) * 64 + r) * 1 + 0;
  }

  /** The digits for a unit, read inside a shifted run, complete what was pending. */
  lemma DigitsSync(e: Encoder, d: Decoder, pending: seq<u16>, x: u16)
    returns (d': Decoder, out: seq<u16>, pending': seq<u16>)
    requires Sync(e, d, pending) && e.shifted
    ensures DecodeChars(d, Digits(ShiftUnit(e.u, x), e.bits + 16)) == Decoded(d', out)
    ensures Sync(Encoder(true, (e.bits + 16) % 6, ShiftUnit(e.u, x)), d', pending')
    ensures pending + [x] == out + pending'
  {
    hide Digits, DecodeChars, ShiftUnit;
    if e.bits == 0 {
      d' := SyncFromZero(e.u, d.v, x);
      out, pending' := [], [x];
    } else if e.bits == 4 {
      d' := SyncFromFour(e.u, d.v, pending[0], x);
      out, pending' := [pending[0]], [x];
    } else {
      d' := SyncFromTwo(e.u, d.v, pending[0], x);
      out, pending' := [pending[0]] + [x], [];
      AppendEmpty(out);
    }
  }

  lemma {:induction false} DigitsStart(u: nat, bits: nat)
    requires bits >= 6
    ensures Digits(u, bits) != "" && Digits(u, bits)[0] != '-'
  {
    RankOfDigit(SixBits(u, bits - 6));
  }

  /** An ampersand opens a shifted run, unless `-` follows. */
  lemma AmpOpens(s: string)
    requires s != "" && s[0] != '-'
    ensures DecodeChars(Plain, "&" + s) == DecodeChars(Shifted(0, 0), s)
  {
    hide DecodeShifted;
    assert ("&" + s)[1..] == s;
    var r := DecodeChars(Shifted(0, 0), s);
    assert DecodeChars(Amp, s) == r;
    if r.Decoded? {
      AppendEmpty(r.out);
    }
  }

  /** Closing a run completes what was pending; the padding bits create nothing. */
  lemma CloseSync(e: Encoder, d: Decoder, pending: seq<u16>)
    requires Sync(e, d, pending)
    ensures DecodeChars(d, Close(e)) == Decoded(Plain, pending)
  {
    if e.shifted {
      if e.bits == 0 {
        assert "" + "-" == "-";
        DecodeOne(d, '-', Decoded(Plain, []));
      } else if e.bits == 4 {
        CloseAfterFour(e.u, d.v, pending[0]);
      } else {
        CloseAfterTwo(e.u, d.v, pending[0]);
      }
    }
  }

  /** The last digit holds the pending bits, above zeros. */
  lemma PadAfterFour(u: nat)
    ensures Close(Encoder(true, 4, u)) == [Digit(u % 16 * 4)] + "-"
  {
    hide Digit;
    PowerValues();
    DivModOf(u / 16, 64, u % 16 * 4);
    assert u * 4 == u / 16 * 64 + u % 16 * 4;
  }

  lemma PadAfterTwo(u: nat)
    ensures Close(Encoder(true, 2, u)) == [Digit(u % 4 * 16)] + "-"
  {
    hide Digit;
    PowerValues();
    DivModOf(u / 4, 64, u % 4 * 16);
    assert u * 16 == u / 4 * 64 + u % 4 * 16;
  }

  lemma CloseAfterFour(u: nat, v: nat, w: u16)
    requires u < WORD32 && v % 0x1000 == w / 16 && u % 16 == w % 16
    ensures DecodeChars(Shifted(12, v), Close(Encoder(true, 4, u))) == Decoded(Plain, [w])
  {
    hide Pow2, DecodeChars, Digit, Close;
    var l := u % 16;
    PowerValues();
    PadAfterFour(u);
    var v' := ReadAndEmit(12, v, 0x1000, 0x4000, l * 4, 4, w, 0);
    DecodeOne(Shifted(2, v'), '-', Decoded(Plain, []));
    Chain(Shifted(12, v), [Digit(l * 4)], Shifted(2, v'), [w], "-", Plain, []);
    AppendEmpty([w]);
  }

  lemma CloseAfterTwo(u: nat, v: nat, w: u16)
    requires u < WORD32 && v % 0x4000 == w / 4 && u % 4 == w % 4
    ensures DecodeChars(Shifted(14, v), Close(Encoder(true, 2, u))) == Decoded(Plain, [w])
  {
    hide Pow2, DecodeChars, Digit, Close;
    var l := u % 4;
    PowerValues();
    PadAfterTwo(u);
    var v' := ReadAndEmit(14, v, 0x4000, 0x1000, l * 16, 16, w, 0);
    DecodeOne(Shifted(4, v'), '-', Decoded(Plain, []));
    Chain(Shifted(14, v), [Digit(l * 16)], Shifted(4, v'), [w], "-", Plain, []);
    AppendEmpty([w]);
  }

  lemma DirectSync(x: u16)
    requires IsDirect(x)
    ensures DecodeChars(Plain, if x == 0x26 then "&-" else [x as char]) == Decoded(Plain, [x])
  {
    if x == 0x26 {
      DecodeOne(Plain, '&', Decoded(Amp, []));
      DecodeOne(Amp, '-', Decoded(Plain, [0x26]));
      Chain(Plain, "&", Amp, [], "-", Plain, [0x26]);
      assert "&" + "-" == "&-";
    } else {
      DecodeOne(Plain, x as char, Decoded(Plain, [x]));
    }
  }

  /** One code unit, whatever it is. */
  lemma UnitSync(e: Encoder, d: Decoder, pending: seq<u16>, x: u16)
    returns (d': Decoder, out: seq<u16>, pending': seq<u16>)
    requires Sync(e, d, pending)
    ensures DecodeChars(d, EncodeUnit(e, x).out) == Decoded(d', out)
    ensures Sync(EncodeUnit(e, x).next, d', pending') && pending + [x] == out + pending'
  {
    hide Digits, DecodeChars, ShiftUnit, Close;
    if IsDirect(x) {
      CloseSync(e, d, pending);
      DirectSync(x);
      Chain(d, Close(e), Plain, pending, if x == 0x26 then "&-" else [x as char], Plain, [x]);
      d', out, pending' := Plain, pending + [x], [];
      AppendEmpty(out);
    } else if e.shifted {
      d', out, pending' := DigitsSync(e, d, pending, x);
      AppendEmpty(Digits(ShiftUnit(e.u, x), e.bits + 16));
    } else {
      var open := Encoder(true, 0, e.u);
      d', out, pending' := DigitsSync(open, Shifted(0, 0), [], x);
      DigitsStart(ShiftUnit(e.u, x), 16);
      AmpOpens(Digits(ShiftUnit(e.u, x), 16));
    }
  }

  lemma {:induction false} UnitsSync(e: Encoder, d: Decoder, pending: seq<u16>, xs: seq<u16>)
    requires Sync(e, d, pending)
    ensures DecodeChars(d, EncodeUnits(e, xs)) == Decoded(Plain, pending + xs)
    decreases |xs|
  {
    hide DecodeChars, EncodeUnit, Close, Sync;
    if xs == [] {
      CloseSync(e, d, pending);
      AppendEmpty(pending);
    } else {
      SyncIsValid(e, d, pending);
      var d', out, pending' := UnitSync(e, d, pending, xs[0]);
      var r := EncodeUnit(e, xs[0]);
      UnitsSync(r.next, d', pending', xs[1..]);
      Chain(d, r.out, d', out, EncodeUnits(r.next, xs[1..]), Plain, pending' + xs[1..]);
      AppendAssoc(out, pending', xs[1..]);
      AppendAssoc(pending, [xs[0]], xs[1..]);
      HeadTail(xs);
    }
  }

  lemma SyncIsValid(e: Encoder, d: Decoder, pending: seq<u16>)
    requires Sync(e, d, pending)
    ensures ValidEncoder(e) && ValidDecoder(d)
  {
  }

  /** Decoding what was encoded gives the same code units, and every shifted run is closed. */
  lemma UnitsRoundTrip(xs: seq<u16>)
    ensures Decode(Encode(xs)) == Some(xs)
    ensures DecodeChars(Plain, Encode(xs)) == Decoded(Plain, xs)
  {
    UnitsSync(INITIAL, Plain, [], xs);
    AppendEmpty(xs);
  }
}
