/**
 Modified UTF-7 for mailbox names (section 5.1.3 of RFC 3501): an encoder over UTF-16 code units
 that packs bits into base-64 digits, and the decoder that unpacks them. Both work on 32-bit
 words of which only the low bits count. Bitwise "or" of disjoint bits is written as a sum.
 */
module Utf7Model {
  import opened Basics

  type u16 = u: int | 0 <= u < 0x1_0000

  lemma PowerValues()
    ensures Pow2(0) == 1 && Pow2(2) == 4 && Pow2(4) == 16 && Pow2(6) == 64 && Pow2(8) == 256
    ensures Pow2(10) == 0x400 && Pow2(12) == 0x1000 && Pow2(14) == 0x4000
  {
    assert Pow2(6) == 64;
    assert Pow2(8) == 4 * Pow2(6);
    assert Pow2(10) == 4 * Pow2(8);
    assert Pow2(12) == 4 * Pow2(10);
    assert Pow2(14) == 4 * Pow2(12);
  }

  /** The digit alphabet: letters, decimal digits, `+` and `,`. */
  function Digit(i: nat): char
    requires i < 64
  {
    if i < 26 then 'A' + i as char
    else if i < 52 then 'a' + (i - 26) as char
    else if i < 62 then '0' + (i - 52) as char
    else if i == 62 then '+' else ','
  }

  function Rank(c: char): Option<nat> {
    if 'A' <= c <= 'Z' then Some(c as int - 'A' as int)
    else if 'a' <= c <= 'z' then Some(c as int - 'a' as int + 26)
    else if '0' <= c <= '9' then Some(c as int - '0' as int + 52)
    else if c == '+' then Some(62)
    else if c == ',' then Some(63)
    else None
  }

  lemma RankOfDigit(i: nat)
    requires i < 64
    ensures Rank(Digit(i)) == Some(i) && Digit(i) != '-' && Digit(i) != '&'
    ensures 0x20 <= Digit(i) as int < 0x7f
  {
  }

  predicate IsDirect(x: u16) {
    0x20 <= x < 0x7f
  }

  // ---- Encoder --------------------------------------------------------------------------------

  /** The low `bits` bits of the 32-bit word `u` are not yet written. */
  datatype Encoder = Encoder(shifted: bool, bits: nat, u: nat)

  datatype Encoded = Encoded(next: Encoder, out: string)

  predicate ValidEncoder(e: Encoder) {
    && (e.bits == 0 || e.bits == 2 || e.bits == 4) && e.u < WORD32
    && (!e.shifted ==> e.bits == 0)
  }

  /** Six bits of a word, from bit `k` up. */
  function SixBits(u: nat, k: nat): (i: nat)
    ensures i < 64
  {
    u / Pow2(k) % 64
  }

  /** The digits written while six bits are available. */
  function Digits(u: nat, bits: nat): string
    decreases bits
  {
    if bits < 6 then "" else [Digit(SixBits(u, bits - 6))] + Digits(u, bits - 6)
  }

  /** End a shifted run: pad the last digit with zero bits, then `-`. */
  function Close(e: Encoder): string {
    if !e.shifted then ""
    else (if 0 < e.bits < 6 then [Digit(e.u * Pow2(6 - e.bits) % 64)] else "") + "-"
  }

  /** Shift a code unit into the word; bits beyond 32 fall off. */
  function ShiftUnit(u: nat, x: u16): (r: nat)
    ensures r < WORD32
  {
    u % 0x1_0000 * 0x1_0000 + x
  }

  function EncodeUnit(e: Encoder, x: u16): (r: Encoded)
    requires ValidEncoder(e)
    ensures ValidEncoder(r.next)
  {
    if IsDirect(x) then
      Encoded(Encoder(false, 0, e.u), Close(e) + if x == 0x26 then "&-" else [x as char])
    else
      var u := ShiftUnit(e.u, x);
      Encoded(Encoder(true, (e.bits + 16) % 6, u), (if e.shifted then "" else "&") + Digits(u, e.bits + 16))
  }

  function EncodeUnits(e: Encoder, xs: seq<u16>): string
    requires ValidEncoder(e)
    decreases |xs|
  {
    if xs == [] then Close(e)
    else
      var r := EncodeUnit(e, xs[0]);
      r.out + EncodeUnits(r.next, xs[1..])
  }

  const INITIAL: Encoder := Encoder(false, 0, 0)

  function Encode(xs: seq<u16>): string {
    EncodeUnits(INITIAL, xs)
  }

  // ---- Decoder --------------------------------------------------------------------------------

  /** `Amp`: an ampersand was read and what it means depends on the next character. */
  datatype Decoder = Plain | Amp | Shifted(bits: nat, v: nat)

  datatype Decoded = Invalid | Decoded(next: Decoder, out: seq<u16>)

  /** Shift a digit into the 32-bit word; bits beyond 32 fall off. */
  function ShiftDigit(v: nat, rank: nat): nat {
    v % 0x400_0000 * 64 + rank
  }

  /** A digit: once sixteen bits are there, the code unit above the remaining ones is complete. */
  function DecodeDigit(bits: nat, v: nat, rank: nat): Decoded
    requires bits < 16
  {
    var v' := ShiftDigit(v, rank);
    if bits + 6 < 16 then Decoded(Shifted(bits + 6, v'), [])
    else Decoded(Shifted(bits - 10, v'), [v' / Pow2(bits - 10) % 0x1_0000])
  }

  function DecodeShifted(bits: nat, v: nat, c: char): Decoded
    requires bits < 16
  {
    if c == '-' then Decoded(Plain, [])
    else match Rank(c)
      case None => Invalid
      case Some(rank) => DecodeDigit(bits, v, rank)
  }

  predicate ValidDecoder(d: Decoder) {
    d.Shifted? ==> d.bits < 16
  }

  function DecodeChar(d: Decoder, c: char): (r: Decoded)
    requires ValidDecoder(d)
    ensures r.Decoded? ==> ValidDecoder(r.next)
  {
    match d
    case Plain => if c == '&' then Decoded(Amp, []) else Decoded(Plain, [c as int % 0x1_0000])
    case Amp => if c == '-' then Decoded(Plain, [0x26]) else DecodeShifted(0, 0, c)
    case Shifted(bits, v) => DecodeShifted(bits, v, c)
  }

  function DecodeChars(d: Decoder, s: string): (r: Decoded)
    requires ValidDecoder(d)
    ensures r.Decoded? ==> ValidDecoder(r.next)
    decreases |s|
  {
    if s == "" then Decoded(d, [])
    else match DecodeChar(d, s[0])
      case Invalid => Invalid
      case Decoded(d', out) =>
        match DecodeChars(d', s[1..])
        case Invalid => Invalid
        case Decoded(d'', more) => Decoded(d'', out + more)
  }

  /** The code units of a text, or nothing if a shifted run contains a character that is not a digit. */
  function Decode(s: string): Option<seq<u16>> {
    match DecodeChars(Plain, s)
    case Invalid => None
    case Decoded(d, out) => Some(out + if d.Amp? then [0x26] else [])
  }

  lemma {:induction false} DecodeAppend(d: Decoder, a: string, b: string, d': Decoder, out: seq<u16>)
    requires ValidDecoder(d) && DecodeChars(d, a) == Decoded(d', out)
    ensures var r := DecodeChars(d', b);
            DecodeChars(d, a + b) == if r.Decoded? then Decoded(r.next, out + r.out) else Invalid
    decreases |a|
  {
    if a == "" {
      assert a + b == b;
      var r := DecodeChars(d', b);
      if r.Decoded? {
        AppendEmpty(r.out);
      }
    } else {
      assert (a + b)[1..] == a[1..] + b;
      var first := DecodeChar(d, a[0]);
      var rest := DecodeChars(first.next, a[1..]);
      DecodeAppend(first.next, a[1..], b, d', rest.out);
      var r := DecodeChars(d', b);
      if r.Decoded? {
        AppendAssoc(first.out, rest.out, r.out);
      }
    }
  }
}
