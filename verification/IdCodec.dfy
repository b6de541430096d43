/**
 Identifiers as base-32 text. The writer keeps the unwritten digits of a 64-bit word above a stop
 bit and shifts them out from the top; the reader shifts digits in and lets the word wrap around.
 */
module IdCodec {
  import opened Basics

  const STOP_BIT := 0x1000_0000_0000_0000

  type digit = d: int | 0 <= d < 32

  // ---- The alphabet -----------------------------------------------------------------------------

  const ALPHABET := "abcdefghijklmnopqrstuvwxyz792013"

  function Letter(d: digit): (c: char)
    ensures DigitOf(c) == Some(d)
  {
    ALPHABET[d]
  }

  /** The inverse table, which also knows the upper-case letters from K on. */
  function DigitOf(c: char): Option<digit> {
    if 'a' <= c <= 'z' then Some(c as int - 'a' as int)
    else if 'K' <= c <= 'Z' then Some(c as int - 'A' as int)
    else if c == '7' then Some(26)
    else if c == '9' then Some(27)
    else if c == '2' then Some(28)
    else if c == '0' then Some(29)
    else if c == '1' then Some(30)
    else if c == '3' then Some(31)
    else None
  }

  /** Letters of either case, the upper ones from K on, then six figures; each stands for its place. */
  lemma DigitMeans(c: char, d: digit)
    ensures DigitOf(c) == Some(d) <==>
            (if d < 26 then c as int == 97 + d || (d >= 10 && c as int == 65 + d) else c == "792013"[d - 26])
  {
  }

  lemma LetterMeans(d: digit)
    ensures Letter(d) == if d < 26 then (97 + d) as char else "792013"[d - 26]
  {
    hide Letter;
    DigitMeans(Letter(d), d);
    LetterIsLower(d);
  }

  lemma LetterIsLower(d: digit)
    ensures !('A' <= Letter(d) <= 'Z')
  {
  }

  function Letters(ds: seq<digit>): string {
    seq(|ds|, i requires 0 <= i < |ds| => Letter(ds[i]))
  }

  lemma LettersAppend(a: seq<digit>, b: seq<digit>)
    ensures Letters(a + b) == Letters(a) + Letters(b)
  {
  }

  lemma {:induction false} DigitsOfLetters(ds: seq<digit>)
    ensures Digits(Letters(ds)) == Some(ds)
    decreases |ds|
  {
    hide Letter, DigitOf;
    if ds != [] {
      var init, d := ds[..|ds| - 1], ds[|ds| - 1];
      DigitsOfLetters(init);
      assert ds == init + [d];
      LettersAppend(init, [d]);
      DigitsSnoc(Letters(init), Letter(d));
      assert Letters([d]) == [Letter(d)];
    }
  }

  lemma DigitsSnoc(s: string, c: char)
    requires Digits(s).Some? && DigitOf(c).Some?
    ensures Digits(s + [c]) == Some(Digits(s).value + [DigitOf(c).value])
  {
    hide DigitOf;
    assert (s + [c])[..|s|] == s;
  }

  /** The digits a text spells, if every character is in the table. */
  function Digits(s: string): Option<seq<digit>> {
    if s == [] then Some([]) else
      match (Digits(s[..|s| - 1]), DigitOf(s[|s| - 1]))
      case (Some(ds), Some(d)) => Some(ds + [d])
      case _ => None
  }

  // ---- Numerals ---------------------------------------------------------------------------------

  /** The base-32 numeral, most significant digit first, without leading zeros. */
  function Numeral(n: nat): seq<digit> {
    if n < 32 then [n] else Numeral(n / 32) + [n % 32]
  }

  function Value(ds: seq<digit>): nat {
    if ds == [] then 0 else Value(ds[..|ds| - 1]) * 32 + ds[|ds| - 1]
  }

  predicate Canonical(ds: seq<digit>) {
    |ds| == 1 || (|ds| > 1 && ds[0] != 0)
  }

  lemma ValueSnoc(ds: seq<digit>, d: digit)
    ensures Value(ds + [d]) == Value(ds) * 32 + d
  {
    assert (ds + [d])[..|ds|] == ds;
  }

  lemma {:induction false} NumeralIsCanonical(n: nat)
    ensures Canonical(Numeral(n)) && Value(Numeral(n)) == n && (Numeral(n)[0] == 0 ==> n == 0)
  {
    if n >= 32 {
      NumeralIsCanonical(n / 32);
      ValueSnoc(Numeral(n / 32), n % 32);
    } else {
      assert [n] == [] + [n];
      ValueSnoc([], n);
    }
  }

  lemma {:induction false} CanonicalIsPositive(ds: seq<digit>)
    requires ds != [] && ds[0] != 0
    ensures Value(ds) > 0
    decreases |ds|
  {
    if |ds| > 1 {
      CanonicalIsPositive(ds[..|ds| - 1]);
    }
  }

  /** Numerals are exactly the canonical digit lists. */
  lemma {:induction false} CanonicalIsNumeral(ds: seq<digit>)
    requires Canonical(ds)
    ensures Numeral(Value(ds)) == ds
    decreases |ds|
  {
    var init, d := ds[..|ds| - 1], ds[|ds| - 1];
    assert ds == init + [d];
    if |ds| > 1 {
      CanonicalIsPositive(init);
      CanonicalIsNumeral(init);
      DivIs(Value(ds), 32, Value(init), d);
    }
  }

  /** The text of an identifier: its numeral. */
  function Text(id: u64): string {
    Letters(Numeral(id))
  }

  // ---- Powers and padded digits -----------------------------------------------------------------

  function Pow(k: nat): (p: nat)
    ensures p > 0
  {
    if k == 0 then 1 else 32 * Pow(k - 1)
  }

  lemma {:induction false} PowAdd(a: nat, b: nat)
    ensures Pow(a) * Pow(b) == Pow(a + b)
  {
    if a > 0 {
      PowAdd(a - 1, b);
    }
  }

  lemma PowConstants()
    ensures Pow(12) == STOP_BIT && 16 * Pow(12) == WORD64 && 16 * Pow(11) == STOP_BIT / 2
  {
    assert Pow(4) == 0x10_0000;
    PowAdd(4, 4);
    PowAdd(4, 8);
    PowAdd(3, 8);
  }

  /** The `w` low digits of a number, most significant first. */
  function Padded(p: nat, w: nat): seq<digit>
    requires p < Pow(w)
  {
    if w == 0 then [] else
      QuotientIsDigit(p, w);
      [p / Pow(w - 1)] + Padded(p % Pow(w - 1), w - 1)
  }

  lemma QuotientIsDigit(p: nat, w: nat)
    requires w > 0 && p < Pow(w)
    ensures 0 <= p / Pow(w - 1) < 32 && p == Pow(w - 1) * (p / Pow(w - 1)) + p % Pow(w - 1)
  {
    var unit := Pow(w - 1);
    hide Pow;
    CancelFactor(p / unit, 32, unit);
  }

  lemma CancelFactor(a: int, b: int, unit: nat)
    requires unit > 0
    ensures a * unit < b * unit <==> a < b
  {
    var e := b - a;
    assert b * unit - a * unit == e * unit;
    SignOfProduct(e, unit);
  }

  lemma SignOfProduct(e: int, unit: nat)
    requires unit > 0
    ensures e * unit > 0 <==> e > 0
  {
  }

  /** The same digits, split off from the other end. */
  lemma {:induction false} PaddedSnoc(p: nat, w: nat)
    requires w > 0 && p < Pow(w)
    ensures p / 32 < Pow(w - 1) && Padded(p, w) == Padded(p / 32, w - 1) + [p % 32]
    decreases w
  {
    if w == 1 {
      assert Padded(p, 1) == [p / 1] + Padded(p % 1, 0);
    } else {
      var unit, small := Pow(w - 1), Pow(w - 2);
      QuotientIsDigit(p, w);
      var q, r := p / unit, p % unit;
      PaddedSnoc(r, w - 1);
      SplitOffDigit(q, r, small);
      assert Padded(p, w) == [q] + (Padded(r / 32, w - 2) + [r % 32]);
      assert Padded(p / 32, w - 1) == [q] + Padded(r / 32, w - 2);
    }
  }

  lemma SplitOffDigit(q: nat, r: nat, small: nat)
    requires q < 32 && r < 32 * small
    ensures var p := 32 * small * q + r;
            p / 32 == small * q + r / 32 && p % 32 == r % 32 && p / 32 < 32 * small
            && p / 32 / small == q && p / 32 % small == r / 32
  {
    var p := 32 * small * q + r;
    var t := small * q;
    assert p == 32 * (t + r / 32) + r % 32;
    DivIs(p, 32, t + r / 32, r % 32);
    DivIs(t + r / 32, small, q, r / 32);
    assert t <= 31 * small by {
      assert (31 - q) * small >= 0;
    }
  }

  lemma {:induction false} PaddedIsNumeral(p: nat, w: nat)
    requires w > 0 && p < Pow(w) && (w == 1 || p >= Pow(w - 1))
    ensures Padded(p, w) == Numeral(p)
    decreases w
  {
    PaddedSnoc(p, w);
    if w > 1 {
      assert p >= 32 * Pow(w - 2);
      hide Pow;
      PaddedIsNumeral(p / 32, w - 1);
      assert w == 2 || p >= 32;
    }
  }

  // ---- Writing ----------------------------------------------------------------------------------

  /** Shift to the left, losing the bits above the word. */
  function Shl(n: u64, bits: nat): u64 {
    n * Pow2(bits) % WORD64
  }

  function LeadingZeros(n: u64): nat
    decreases WORD64 - n
  {
    if n == 0 then 64 else if n >= WORD64 / 2 then 0 else 1 + LeadingZeros(2 * n)
  }

  /** `p` is what is left to write in `12 - k` digits, above a stop bit and `5 * k` zero bits. */
  predicate Holds(n: nat, p: nat, k: nat) {
    k <= 12 && p < Pow(12 - k) && n == (16 * p + 1) * Pow(k)
  }

  lemma {:induction false} Pow2Add(a: nat, b: nat)
    ensures Pow2(a) * Pow2(b) == Pow2(a + b)
  {
    if a > 0 {
      Pow2Add(a - 1, b);
    }
  }

  lemma {:induction false} Pow2OfFive(j: nat)
    ensures Pow2(5 * j) == Pow(j)
  {
    if j > 0 {
      Pow2OfFive(j - 1);
      assert Pow2(5) == 32;
      Pow2Add(5, 5 * (j - 1));
    }
  }

  lemma {:induction false} LeadingZerosMeans(n: u64)
    requires n > 0
    ensures WORD64 / 2 <= n * Pow2(LeadingZeros(n)) < WORD64
    decreases WORD64 - n
  {
    if n < WORD64 / 2 {
      var l := LeadingZeros(2 * n);
      LeadingZerosMeans(2 * n);
      assert n * Pow2(1 + l) == 2 * n * Pow2(l);
    }
  }

  /** The shift that eats leading zeros keeps the word and brings a one into its top five bits. */
  lemma EatZeros(n: u64) returns (j: nat)
    requires n > 0
    ensures LeadingZeros(n) / 5 == j && Shl(n, LeadingZeros(n) / 5 * 5) == n * Pow(j) && n * Pow(j) >= WORD64 / 32
  {
    hide Pow, Pow2, LeadingZeros;
    var l := LeadingZeros(n);
    j := l / 5;
    var r := l % 5;
    LeadingZerosMeans(n);
    Pow2Add(5 * j, r);
    Pow2OfFive(j);
    SmallPow2(r);
    MulAssoc(n, Pow(j), Pow2(r));
    Scale(n * Pow(j), Pow2(r));
  }

  lemma MulAssoc(a: nat, b: nat, c: nat)
    ensures a * (b * c) == a * b * c
  {
  }

  lemma SmallPow2(r: nat)
    requires r <= 4
    ensures 1 <= Pow2(r) <= 16
  {
  }

  lemma Scale(m: nat, f: nat)
    requires 1 <= f <= 16
    ensures m <= m * f <= 16 * m
  {
  }

  /** The eaten word still holds `p`, in as many digits as its numeral has. */
  lemma HoldsAfterEating(p: nat, j: nat)
    requires 0 < p && WORD64 / 32 <= (16 * p + 1) * Pow(j) < WORD64
    ensures Holds((16 * p + 1) * Pow(j), p, j) && j < 12 && p >= Pow(11 - j)
  {
    PowConstants();
    BelowTwelve(p, j);
    PowAdd(12 - j, j);
    PowAdd(11 - j, j);
    hide Pow;
    MulAssoc(16, Pow(12 - j), Pow(j));
    MulAssoc(16, Pow(11 - j), Pow(j));
    CancelFactor(16 * p + 1, 16 * Pow(12 - j), Pow(j));
    CancelFactor(16 * p + 1, 16 * Pow(11 - j), Pow(j));
  }

  lemma BelowTwelve(p: nat, j: nat)
    requires 0 < p && (16 * p + 1) * Pow(j) < WORD64
    ensures j < 12
  {
    if j >= 12 {
      TwelveIsTooMany(p, j);
    }
  }

  lemma TwelveIsTooMany(p: nat, j: nat)
    requires 0 < p && j >= 12
    ensures (16 * p + 1) * Pow(j) >= WORD64
  {
    PowConstants();
    PowAdd(12, j - 12);
    hide Pow;
    Grows(Pow(12), Pow(j - 12));
    Grows(Pow(j), 16 * p + 1 - 16);
    assert (16 * p + 1) * Pow(j) == 16 * Pow(j) + (16 * p + 1 - 16) * Pow(j);
  }

  lemma Grows(m: nat, f: nat)
    requires f >= 1
    ensures m * f >= m
  {
  }

  /** One turn of the loop writes the top digit of `p` and keeps the rest. */
  lemma ShiftOut(n: u64, p: nat, k: nat)
    requires Holds(n, p, k) && k < 12
    ensures n != STOP_BIT && n / (STOP_BIT / 2) == p / Pow(11 - k) && Holds(Shl(n, 5), p % Pow(11 - k), k + 1)
  {
    NotStopped(p, k);
    PowConstants();
    PowAdd(11 - k, k);
    assert Pow2(5) == 32 && Pow(k + 1) == 32 * Pow(k);
    QuotientIsDigit(p, 12 - k);
    hide Pow;
    ShiftOutWord(n, p / Pow(11 - k), p % Pow(11 - k), Pow(11 - k), Pow(k));
  }

  lemma ShiftOutWord(n: nat, q: nat, r: nat, unit: nat, f: nat)
    requires r < unit && f > 0 && 16 * (unit * f) == STOP_BIT / 2 && n == (16 * (unit * q + r) + 1) * f
    ensures n / (STOP_BIT / 2) == q && n * 32 % WORD64 == (16 * r + 1) * (32 * f)
  {
    SplitWord(q, r, unit, f);
    RestIsBelow(r, unit, f);
    ShiftParts(n, q, (16 * r + 1) * f);
    MulAssoc32(16 * r + 1, f);
  }

  lemma RestIsBelow(r: nat, unit: nat, f: nat)
    requires r < unit && f > 0
    ensures (16 * r + 1) * f < 16 * (unit * f)
  {
    CancelFactor(16 * r + 1, 16 * unit, f);
    MulAssoc(16, unit, f);
  }

  lemma ShiftParts(n: nat, q: nat, rest: nat)
    requires n == STOP_BIT / 2 * q + rest && rest < STOP_BIT / 2
    ensures n / (STOP_BIT / 2) == q && n * 32 % WORD64 == 32 * rest
  {
    DivIs(n, STOP_BIT / 2, q, rest);
    DivIs(n * 32, WORD64, q, 32 * rest);
  }

  lemma MulAssoc32(a: nat, b: nat)
    ensures a * (32 * b) == 32 * (a * b)
  {
  }

  lemma SplitWord(q: nat, r: nat, unit: nat, f: nat)
    ensures (16 * (unit * q + r) + 1) * f == 16 * (unit * f) * q + (16 * r + 1) * f
  {
  }

  /** The stop word is reached only when no digit is left: above the stop bit the parities differ. */
  lemma NotStopped(p: nat, k: nat)
    requires k < 12
    ensures (16 * p + 1) * Pow(k) != STOP_BIT
  {
    PowConstants();
    PowAdd(12 - k, k);
    var half := 16 * Pow(11 - k);
    assert Pow(12 - k) == 2 * half;
    hide Pow;
    CancelFactor(16 * p + 1, 2 * half, Pow(k));
    CancelFactor(2 * half, 16 * p + 1, Pow(k));
  }

  lemma Stopped(n: u64, p: nat)
    requires Holds(n, p, 12)
    ensures n == STOP_BIT && p == 0
  {
    PowConstants();
    assert Pow(0) == 1;
  }

  /** The loop's progress: what is written, and what the word still holds, make the numeral. */
  ghost predicate Progress(id: u64, buf: string, n: u64, p: nat, k: nat) {
    Holds(n, p, k) && buf + Letters(Padded(p, 12 - k)) == Text(id)
  }

  /** Shifting out the top four bits leaves room for the stop bit. */
  lemma TagWord(id: u64)
    ensures Shl(id, 4) == 16 * (id % STOP_BIT) <= WORD64 - 16
  {
    assert Pow2(4) == 16;
    DivIs(16 * id, WORD64, id / STOP_BIT, 16 * (id % STOP_BIT));
  }

  lemma StartSmall(id: u64) returns (j: nat)
    requires 0 < id < STOP_BIT && Shl(id, 4) == 16 * id <= WORD64 - 16
    ensures var n := Shl(id, 4) + 1;
            Progress(id, "", Shl(n, LeadingZeros(n) / 5 * 5), id, j)
  {
    hide Pow, Pow2, LeadingZeros, Shl, Numeral, Padded, Letters;
    j := EatZeros(16 * id + 1);
    HoldsAfterEating(id, j);
    PaddedIsNumeral(id, 12 - j);
    AppendEmpty(Letters(Numeral(id)));
  }

  lemma StartLarge(id: u64)
    requires id >= STOP_BIT && Shl(id, 4) == 16 * (id % STOP_BIT) <= WORD64 - 16
    ensures id / STOP_BIT < 32 && Progress(id, [Letter(id / STOP_BIT)], Shl(id, 4) + 1, id % STOP_BIT, 0)
  {
    PowConstants();
    assert Pow(13) == 32 * Pow(12) && Pow(0) == 1;
    PaddedIsNumeral(id, 13);
    var i := id / STOP_BIT;
    assert Padded(id, 13) == [i] + Padded(id % STOP_BIT, 12);
    LettersAppend([i], Padded(id % STOP_BIT, 12));
    assert Letters([i]) == [Letter(i)];
  }

  lemma ProgressStep(id: u64, buf: string, n: u64, p: nat, k: nat)
    requires Progress(id, buf, n, p, k) && n != STOP_BIT
    ensures k < 12 && n / (STOP_BIT / 2) < 32
    ensures Progress(id, buf + [Letter(n / (STOP_BIT / 2))], Shl(n, 5), p % Pow(11 - k), k + 1)
  {
    hide Pow, Shl, Numeral, Letters, Letter, Holds;
    InLoop(n, p, k);
    ShiftOut(n, p, k);
    QuotientIsDigit(p, 12 - k);
    var i: digit := p / Pow(11 - k);
    var rest := Padded(p % Pow(11 - k), 11 - k);
    assert Padded(p, 12 - k) == [i] + rest;
    LettersAppend([i], rest);
    LettersOne(i);
    AppendAssoc(buf, [Letter(i)], Letters(rest));
  }

  lemma InLoop(n: u64, p: nat, k: nat)
    requires Holds(n, p, k) && n != STOP_BIT
    ensures k < 12 && p < Pow(12 - k)
  {
    if k == 12 {
      Stopped(n, p);
    }
  }

  lemma LettersOne(i: digit)
    ensures Letters([i]) == [Letter(i)]
  {
  }

  lemma ProgressEnd(id: u64, buf: string, p: nat, k: nat)
    ensures Progress(id, buf, STOP_BIT, p, k) ==> buf == Text(id)
  {
    if k < 12 {
      NotStopped(p, k);
    }
    AppendEmpty(buf);
  }

  method AsString(id: u64) returns (buf: string)
    ensures buf == Text(id)
  {
    if id == 0 {
      return "a";
    }
    var n: u64 := id;
    ghost var p: nat, k: nat := id % STOP_BIT, 0;
    hide *;
    TagWord(id);
    var i := n / STOP_BIT;
    if i == 0 {
      k := StartSmall(id);
      n := Shl(n, 4) + 1;
      n := Shl(n, LeadingZeros(n) / 5 * 5);
      buf := "";
    } else {
      StartLarge(id);
      n := Shl(n, 4) + 1;
      buf := [Letter(i)];
    }
    while n != STOP_BIT
      invariant Progress(id, buf, n, p, k)
      decreases 12 - k
    {
      ProgressStep(id, buf, n, p, k);
      buf := buf + [Letter(n / (STOP_BIT / 2))];
      n := Shl(n, 5);
      p, k := p % Pow(11 - k), k + 1;
    }
    ProgressEnd(id, buf, p, k);
  }

  // ---- Reading ----------------------------------------------------------------------------------

  lemma ShiftIn(v: nat, d: digit)
    ensures Shl(v % WORD64, 5) + d == (v * 32 + d) % WORD64
  {
    assert Pow2(5) == 32;
    var r := v % WORD64;
    var a, b := r * 32 / WORD64, r * 32 % WORD64;
    assert b == 32 * (r - a * (STOP_BIT / 2));
    DivIs(v * 32 + d, WORD64, 32 * (v / WORD64) + a, b + d);
  }

  /** Any text over the table is its numeral modulo the word; anything else is refused. */
  function Read(s: string): Option<u64> {
    var ds := Digits(s);
    if ds.Some? then Some(Value(ds.value) % WORD64) else None
  }

  method FromStr(s: string) returns (r: Option<u64>)
    ensures r == Read(s)
  {
    var id: u64 := 0;
    ghost var ds: seq<digit> := [];
    for i := 0 to |s|
      invariant Digits(s[..i]) == Some(ds) && id == Value(ds) % WORD64
    {
      assert s[..i + 1][..i] == s[..i];
      var d := DigitOf(s[i]);
      if d == None {
        UnreadableAfter(s, i + 1);
        return None;
      }
      ShiftIn(Value(ds), d.value);
      ValueSnoc(ds, d.value);
      id := Shl(id, 5) + d.value;
      ds := ds + [d.value];
    }
    assert s[..|s|] == s;
    return Some(id);
  }

  lemma {:induction false} UnreadableAfter(s: string, i: nat)
    requires i <= |s| && Digits(s[..i]) == None
    ensures Digits(s) == None
    decreases |s| - i
  {
    if i == |s| {
      assert s[..i] == s;
    } else {
      assert s[..i + 1][..i] == s[..i];
      UnreadableAfter(s, i + 1);
    }
  }

  /** What is written for an identifier is read back as that identifier. */
  lemma IdRoundTrip(id: u64)
    ensures Read(Text(id)) == Some(id)
  {
    hide Numeral, Letters, Digits, Value;
    DigitsOfLetters(Numeral(id));
    NumeralIsCanonical(id);
  }

  /** The texts that survive reading and writing are the ones that are written. */
  lemma TextRoundTrip(s: string)
    requires Digits(s).Some?
    ensures var ds := Digits(s).value;
            Text(Read(s).value) == s <==> s == Letters(ds) && Canonical(ds) && Value(ds) < WORD64
  {
    hide Numeral, Letters, Digits, Value, Canonical;
    var ds, id := Digits(s).value, Read(s).value;
    DigitsOfLetters(Numeral(id));
    NumeralIsCanonical(id);
    if Canonical(ds) && Value(ds) < WORD64 {
      CanonicalIsNumeral(ds);
    }
  }
}
