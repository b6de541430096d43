/** Mailbox name encoding as it runs, on whole strings. */
module Utf7 {
  import opened Basics
  import opened Utf7Model
  import opened Utf7RoundTrip

  // ---- UTF-16 -----------------------------------------------------------------------------------

  function CharUnits(c: char): seq<u16> {
    var n := c as int;
    if n < 0x1_0000 then [n] else [0xd800 + (n - 0x1_0000) / 0x400, 0xdc00 + (n - 0x1_0000) % 0x400]
  }

  function ToUtf16(s: string): seq<u16> {
    if s == "" then [] else CharUnits(s[0]) + ToUtf16(s[1..])
  }

  /** The string of a code unit sequence; a surrogate without its partner is refused. */
  function FromUtf16(us: seq<u16>): Option<string> {
    if us == [] then Some("")
    else if !(0xd800 <= us[0] < 0xe000) then
      (match FromUtf16(us[1..])
       case None => None
       case Some(s) => Some([us[0] as char] + s))
    else if us[0] < 0xdc00 && |us| >= 2 && 0xdc00 <= us[1] < 0xe000 then
      (match FromUtf16(us[2..])
       case None => None
       case Some(s) =>
         var hi: int, lo: int := us[0], us[1];
         Some([(0x1_0000 + (hi - 0xd800) * 0x400 + (lo - 0xdc00)) as char] + s))
    else None
  }

  lemma {:induction false} Utf16RoundTrip(s: string)
    ensures FromUtf16(ToUtf16(s)) == Some(s)
  {
    if s != "" {
      Utf16RoundTrip(s[1..]);
      HeadTail(s);
      var us, n := ToUtf16(s), s[0] as int;
      if n < 0x1_0000 {
        assert us[1..] == ToUtf16(s[1..]);
      } else {
        var m := n - 0x1_0000;
        var hi, lo := m / 0x400, m % 0x400;
        assert us[0] == 0xd800 + hi && us[1] == 0xdc00 + lo && us[2..] == ToUtf16(s[1..]);
        assert 0x1_0000 + hi * 0x400 + lo == n;
      }
    }
  }

  /** A character beyond the first plane is a high and a low surrogate, ten bits in each. */
  lemma CharUnitsMean(c: char)
    ensures var us, n := CharUnits(c), c as int;
            if n < 0x1_0000 then us == [n]
            else
              && |us| == 2 && 0xd800 <= us[0] <= 0xdbff && 0xdc00 <= us[1] <= 0xdfff
              && var hi: int, lo: int := us[0], us[1];
                 n == 0x1_0000 + (hi - 0xd800) * 1024 + (lo - 0xdc00)
  {
  }

  /** What decodes is the code units of its string, and nothing else decodes to it. */
  lemma {:induction false} Utf16Inverse(us: seq<u16>)
    requires FromUtf16(us).Some?
    ensures ToUtf16(FromUtf16(us).value) == us
    decreases |us|
  {
    if us != [] {
      var s := FromUtf16(us).value;
      if !(0xd800 <= us[0] < 0xe000) {
        Utf16Inverse(us[1..]);
        HeadTail(us);
        assert s[1..] == FromUtf16(us[1..]).value;
      } else {
        Utf16Inverse(us[2..]);
        assert s[1..] == FromUtf16(us[2..]).value;
        var hi: int, lo: int := us[0] - 0xd800, us[1] - 0xdc00;
        assert s[0] as int == 0x1_0000 + hi * 0x400 + lo;
        DivModOf(hi, 0x400, lo);
        assert us == [us[0], us[1]] + us[2..];
      }
    }
  }

  // ---- The two functions on strings -------------------------------------------------------------

  function EncodeName(s: string): string {
    Encode(ToUtf16(s))
  }

  function DecodeName(s: string): Option<string> {
    match Decode(s)
    case None => None
    case Some(us) => FromUtf16(us)
  }

  /** Decoding an encoded name gives the name back, for every string. */
  lemma NameRoundTrip(s: string)
    ensures DecodeName(EncodeName(s)) == Some(s)
  {
    UnitsRoundTrip(ToUtf16(s));
    Utf16RoundTrip(s);
  }

  predicate Printable(s: string) {
    forall i :: 0 <= i < |s| ==> 0x20 <= s[i] as int < 0x7f
  }

  lemma {:induction false} DigitsPrintable(u: nat, bits: nat)
    ensures Printable(Digits(u, bits))
    decreases bits
  {
    if bits >= 6 {
      RankOfDigit(SixBits(u, bits - 6));
      DigitsPrintable(u, bits - 6);
    }
  }

  lemma UnitPrintable(e: Encoder, x: u16)
    requires ValidEncoder(e)
    ensures Printable(Close(e)) && Printable(EncodeUnit(e, x).out)
  {
    DigitsPrintable(ShiftUnit(e.u, x), e.bits + 16);
    if 0 < e.bits {
      RankOfDigit(e.u * Pow2(6 - e.bits) % 64);
    }
    hide Digit, Digits, Pow2;
    assert Printable(Close(e));
  }

  lemma {:induction false} UnitsPrintable(e: Encoder, xs: seq<u16>)
    requires ValidEncoder(e)
    ensures Printable(EncodeUnits(e, xs))
    decreases |xs|
  {
    hide EncodeUnit, Close;
    if xs == [] {
      UnitPrintable(e, 0);
    } else {
      UnitPrintable(e, xs[0]);
      UnitsPrintable(EncodeUnit(e, xs[0]).next, xs[1..]);
    }
  }

  /** An encoded name is printable ASCII, with every shifted run closed. */
  lemma EncodedNameIsPrintable(s: string)
    ensures Printable(EncodeName(s))
    ensures DecodeChars(Plain, EncodeName(s)) == Decoded(Plain, ToUtf16(s))
  {
    UnitsPrintable(INITIAL, ToUtf16(s));
    UnitsRoundTrip(ToUtf16(s));
  }

  // ---- The loops --------------------------------------------------------------------------------

  method WriteDigits(result: string, u: nat, bits: nat) returns (out: string, rest: nat)
    ensures out == result + Digits(u, bits) && rest == bits % 6
  {
    hide Digit, SixBits;
    out, rest := result, bits;
    while rest >= 6
      invariant rest % 6 == bits % 6
      invariant out + Digits(u, rest) == result + Digits(u, bits)
    {
      var c := Digit(SixBits(u, rest - 6));
      AppendAssoc(out, [c], Digits(u, rest - 6));
      out, rest := out + [c], rest - 6;
    }
    AppendEmpty(out);
  }

  method Utf7Encode(text: string) returns (result: string)
    ensures result == EncodeName(text)
  {
    hide EncodeUnit, Close, Digits, ToUtf16;
    var units := ToUtf16(text);
    result := "";
    var shifted, bits, u := false, 0, 0;
    AppendEmpty(Encode(units));
    assert units[0..] == units;
    for k := 0 to |units|
      invariant ValidEncoder(Encoder(shifted, bits, u))
      invariant result + EncodeUnits(Encoder(shifted, bits, u), units[k..]) == Encode(units)
    {
      var ch := units[k];
      ghost var e := Encoder(shifted, bits, u);
      ghost var r := EncodeUnit(e, ch);
      ghost var before := result;
      assert units[k..][1..] == units[k + 1..];
      AppendAssoc(before, r.out, EncodeUnits(r.next, units[k + 1..]));
      result, shifted, bits, u := EncodeOne(result, shifted, bits, u, ch);
    }
    assert units[|units|..] == [];
    result := CloseRun(result, shifted, bits, u);
  }

  method CloseRun(result: string, shifted: bool, bits: nat, u: nat) returns (out: string)
    ensures out == result + Close(Encoder(shifted, bits, u))
  {
    out := result;
    if shifted {
      if 0 < bits < 6 {
        out := out + [Digit(u * Pow2(6 - bits) % 64)];
      }
      out := out + "-";
    }
    hide Digit;
    assert out == result + Close(Encoder(shifted, bits, u));
  }

  /** The body of the encoding loop. */
  method EncodeOne(result: string, shifted: bool, bits: nat, u: nat, ch: u16)
    returns (out: string, shifted': bool, bits': nat, u': nat)
    requires ValidEncoder(Encoder(shifted, bits, u))
    ensures var r := EncodeUnit(Encoder(shifted, bits, u), ch);
            out == result + r.out && Encoder(shifted', bits', u') == r.next
  {
    hide Close, Digits;
    shifted', bits', u' := shifted, bits, u;
    if IsDirect(ch) {
      out := CloseRun(result, shifted, bits, u);
      shifted', bits' := false, 0;
      ghost var closed := Close(Encoder(shifted, bits, u));
      if ch == 0x26 {
        AppendAssoc(result, closed, "&-");
        out := out + "&-";
      } else {
        AppendAssoc(result, closed, [ch as char]);
        out := out + [ch as char];
      }
    } else {
      out := result;
      if !shifted {
        out := out + "&";
        shifted' := true;
      }
      u' := ShiftUnit(u, ch);
      ghost var head := if shifted then "" else "&";
      AppendEmpty(result);
      AppendAssoc(result, head, Digits(u', bits + 16));
      out, bits' := WriteDigits(out, u', bits + 16);
    }
  }

  /** The code units decoded from here on, with a lone final ampersand standing for itself. */
  ghost function DecodeFrom(d: Decoder, s: string): Option<seq<u16>>
    requires ValidDecoder(d)
  {
    match DecodeChars(d, s)
    case Invalid => None
    case Decoded(d', out) => Some(out + if d'.Amp? then [0x26] else [])
  }

  ghost function Prepend(a: seq<u16>, b: Option<seq<u16>>): Option<seq<u16>> {
    if b.Some? then Some(a + b.value) else None
  }

  lemma PrependAgain(a: seq<u16>, b: seq<u16>, c: Option<seq<u16>>)
    ensures Prepend(a, Prepend(b, c)) == Prepend(a + b, c)
  {
    if c.Some? {
      AppendAssoc(a, b, c.value);
    }
  }

  lemma DecodeStep(d: Decoder, s: string)
    requires ValidDecoder(d) && s != ""
    ensures var r := DecodeChar(d, s[0]);
            DecodeFrom(d, s) == if r.Decoded? then Prepend(r.out, DecodeFrom(r.next, s[1..])) else None
  {
    hide DecodeChar;
    var r := DecodeChar(d, s[0]);
    if r.Decoded? {
      var rest := DecodeChars(r.next, s[1..]);
      if rest.Decoded? {
        AppendAssoc(r.out, rest.out, if rest.next.Amp? then [0x26] else []);
      }
    }
  }

  lemma AmpersandAlone(s: string)
    requires |s| == 1 && s[0] == '&'
    ensures DecodeFrom(Plain, s) == Some([0x26])
  {
    assert s == "&";
    DecodeOne(Plain, '&', Decoded(Amp, []));
    AppendEmpty([0x26 as u16]);
  }

  lemma AmpersandDash(s: string)
    requires |s| >= 2 && s[0] == '&' && s[1] == '-'
    ensures DecodeFrom(Plain, s) == Prepend([0x26], DecodeFrom(Plain, s[2..]))
  {
    DecodeStep(Plain, s);
    DecodeStep(Amp, s[1..]);
    assert s[1..][1..] == s[2..];
    PrependAgain([], [0x26], DecodeFrom(Plain, s[2..]));
    AppendEmpty([0x26 as u16]);
  }

  lemma AmpersandOpens(s: string)
    requires |s| >= 2 && s[0] == '&' && s[1] != '-'
    ensures DecodeFrom(Plain, s) == DecodeFrom(Shifted(0, 0), s[1..])
  {
    AmpOpens(s[1..]);
    assert s == "&" + s[1..];
  }

  method Utf7Decode(text: string) returns (r: Option<string>)
    ensures r == DecodeName(text)
  {
    hide DecodeFrom;
    var units: seq<u16> := [];
    var bits, v, shifted, pos := 0, 0, false, 0;
    assert text[0..] == text;
    assert Decode(text) == Prepend(units, DecodeFrom(Plain, text)) by { DecodeIsFrom(text); }
    while pos < |text|
      invariant 0 <= pos <= |text| && bits < 16 && (!shifted ==> bits == 0 && v == 0)
      invariant Decode(text) == Prepend(units, DecodeFrom(if shifted then Shifted(bits, v) else Plain, text[pos..]))
    {
      hide DecodeName, Decode, DecodeChar;
      var ch := text[pos];
      ghost var rest := text[pos..];
      assert rest[0] == ch && rest[1..] == text[pos + 1..];
      ghost var d := if shifted then Shifted(bits, v) else Plain;
      if shifted {
        DecodeStep(d, rest);
        var ok, out, bits', v', closed := DecodeInRun(bits, v, ch);
        if !ok {
          NoneIsNone(text);
          return None;
        }
        ghost var d' := if closed then Plain else Shifted(bits', v');
        PrependAgain(units, out, DecodeFrom(d', text[pos + 1..]));
        units, bits, v, shifted, pos := units + out, bits', v', !closed, pos + 1;
      } else if ch == '&' {
        if pos + 1 == |text| {
          AmpersandAlone(rest);
          units, pos := units + [0x26], pos + 1;
          NothingLeft();
          assert text[pos..] == "";
          AppendEmpty(units);
        } else if text[pos + 1] == '-' {
          AmpersandDash(rest);
          assert rest[2..] == text[pos + 2..];
          PrependAgain(units, [0x26], DecodeFrom(Plain, text[pos + 2..]));
          units, pos := units + [0x26], pos + 2;
        } else {
          AmpersandOpens(rest);
          shifted, pos := true, pos + 1;
        }
      } else {
        DecodeStep(Plain, rest);
        PlainChar(ch);
        PrependAgain(units, [ch as int % 0x1_0000], DecodeFrom(Plain, text[pos + 1..]));
        units, pos := units + [ch as int % 0x1_0000], pos + 1;
      }
    }
    assert text[pos..] == "";
    NothingLeft();
    EndOfRun(bits, v);
    AppendEmpty(units);
    r := FromUtf16(units);
  }

  /** The body of the decoding loop inside a shifted run. */
  method DecodeInRun(bits: nat, v: nat, ch: char)
    returns (ok: bool, out: seq<u16>, bits': nat, v': nat, closed: bool)
    requires bits < 16
    ensures bits' < 16 && (closed ==> bits' == 0 && v' == 0)
    ensures DecodeChar(Shifted(bits, v), ch)
         == if ok then Decoded(if closed then Plain else Shifted(bits', v'), out) else Invalid
  {
    ok, out, bits', v', closed := true, [], 0, 0, false;
    if ch == '-' {
      closed := true;
    } else {
      match Rank(ch) {
        case None =>
          ok := false;
        case Some(rank) =>
          v' := ShiftDigit(v, rank);
          bits' := bits + 6;
          if bits' >= 16 {
            out := [v' / Pow2(bits' - 16) % 0x1_0000];
            bits' := bits' - 16;
          }
      }
    }
  }

  lemma DecodeIsFrom(text: string)
    ensures Decode(text) == Prepend([], DecodeFrom(Plain, text))
  {
    var d := DecodeFrom(Plain, text);
    if d.Some? {
      AppendEmpty(d.value);
    }
  }

  lemma NothingLeft()
    ensures DecodeFrom(Plain, "") == Some([])
  {
    AppendEmpty<u16>([]);
  }

  lemma EndOfRun(bits: nat, v: nat)
    requires bits < 16
    ensures DecodeFrom(Shifted(bits, v), "") == Some([])
  {
    AppendEmpty<u16>([]);
  }

  lemma PlainChar(ch: char)
    requires ch != '&'
    ensures DecodeChar(Plain, ch) == Decoded(Plain, [ch as int % 0x1_0000])
  {
  }

  lemma NoneIsNone(text: string)
    ensures Decode(text) == None ==> DecodeName(text) == None
  {
  }
}
