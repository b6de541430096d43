/**
 Reading a byte stream front to back: a reader either fails or gives a value and what is left.
 LEB128 integers are read with the source's fixed list of shifts, in a word that drops high bits.
 */
module Wire {
  import opened Basics

  datatype Parsed<+T> = Failed | Parsed(value: T, rest: seq<byte>) {
    predicate IsFailure() {
      Failed?
    }

    function PropagateFailure<U>(): Parsed<U>
      requires IsFailure()
    {
      Failed
    }

    function Extract(): (T, seq<byte>)
      requires !IsFailure()
    {
      (value, rest)
    }
  }

  function Wrap<T, U>(p: Parsed<T>, f: T -> U): Parsed<U> {
    if p.Failed? then Failed else Parsed(f(p.value), p.rest)
  }

  // ---- Bytes ------------------------------------------------------------------------------------

  function NextByte(s: seq<byte>): Parsed<byte> {
    if s == [] then Failed else Parsed(s[0], s[1..])
  }

  function Take(n: nat, s: seq<byte>): Parsed<seq<byte>> {
    if |s| < n then Failed else Parsed(s[..n], s[n..])
  }

  lemma NextByteOf(b: byte, t: seq<byte>)
    ensures NextByte([b] + t) == Parsed(b, t)
  {
  }

  lemma TakeOf(c: seq<byte>, t: seq<byte>)
    ensures Take(|c|, c + t) == Parsed(c, t)
  {
  }

  // ---- LEB128 -----------------------------------------------------------------------------------

  datatype Width = W32 | W64

  /** How many shifts, and so how many bytes, a width allows. */
  function Shifts(w: Width): nat {
    if w.W32? then 5 else 10
  }

  function Limit(w: Width): nat {
    if w.W32? then WORD32 else WORD64
  }

  function Pow128(i: nat): (p: nat)
    ensures p > 0
  {
    if i == 0 then 1 else 128 * Pow128(i - 1)
  }

  /** The seven bits of a byte at their place in the word. */
  function Septet(w: Width, i: nat, b: byte): nat {
    b % 128 * Pow128(i) % Limit(w)
  }

  function LebFrom(w: Width, i: nat, s: seq<byte>): (r: Parsed<nat>)
    requires i <= Shifts(w)
    ensures r.Parsed? ==> |r.rest| < |s|
    decreases s
  {
    if i == Shifts(w) || s == [] then Failed
    else if s[0] < 128 then Parsed(Septet(w, i, s[0]), s[1..])
    else
      var high :- LebFrom(w, i + 1, s[1..]);
      Parsed(Septet(w, i, s[0]) + high.0, high.1)
  }

  function Leb(w: Width, s: seq<byte>): (r: Parsed<nat>)
    ensures r.Parsed? ==> |r.rest| < |s|
  {
    LebFrom(w, 0, s)
  }

  function LebBytes(v: nat): seq<byte> {
    if v < 128 then [v] else [v % 128 + 128] + LebBytes(v / 128)
  }

  lemma ShiftsAreEnough(w: Width)
    ensures Pow128(Shifts(w)) >= Limit(w)
  {
    assert Pow128(3) == 0x20_0000;
    assert Pow128(5) == 0x8_0000_0000;
    assert Pow128(8) == 0x100_0000_0000_0000;
  }

  lemma Distribute(v: nat, p: nat)
    ensures v * p == v % 128 * p + v / 128 * (128 * p)
    ensures v >= 128 ==> 128 * p <= v * p
    ensures v % 128 * p <= v * p
  {
    var q, r := v / 128, v % 128;
    assert v * p == (128 * q + r) * p;
  }

  /** A value that fits the word fits septet by septet, within the shifts. */
  lemma SeptetsFit(w: Width, i: nat, v: nat, b: byte)
    requires i < Shifts(w) && v * Pow128(i) < Limit(w) && b % 128 == v % 128
    ensures v < 128 ==> Septet(w, i, b) == v * Pow128(i)
    ensures v >= 128 ==> i + 1 < Shifts(w) && v / 128 * Pow128(i + 1) < Limit(w)
                         && Septet(w, i, b) + v / 128 * Pow128(i + 1) == v * Pow128(i)
  {
    var p := Pow128(i);
    assert Pow128(i + 1) == 128 * p;
    ShiftsAreEnough(w);
    hide Pow128, Shifts, Limit;
    Distribute(v, p);
    DivIs(b % 128 * p, Limit(w), 0, b % 128 * p);
  }

  lemma {:induction false} LebFromRoundTrip(w: Width, i: nat, v: nat, t: seq<byte>)
    requires i < Shifts(w) && v * Pow128(i) < Limit(w)
    ensures LebFrom(w, i, LebBytes(v) + t) == Parsed(v * Pow128(i), t)
    decreases v
  {
    hide Pow128, Septet, Limit;
    var s := LebBytes(v) + t;
    if v < 128 {
      SeptetsFit(w, i, v, v);
      assert s[1..] == t;
    } else {
      SeptetsFit(w, i, v, v % 128 + 128);
      LebFromRoundTrip(w, i + 1, v / 128, t);
      assert s[1..] == LebBytes(v / 128) + t;
    }
  }

  lemma LebRoundTrip(w: Width, v: nat, t: seq<byte>)
    requires v < Limit(w)
    ensures Leb(w, LebBytes(v) + t) == Parsed(v, t)
  {
    assert Pow128(0) == 1;
    LebFromRoundTrip(w, 0, v, t);
  }
}
