/**
 Modified UTF-7 as section 5.1.3 of RFC 3501 gives it, on whole names: printable ASCII stands for
 itself, and each longest run of other characters is one number, written in base 64.
 */
module Utf7Reference {
  import opened Basics
  import opened Utf7Model
  import opened Utf7RoundTrip
  import opened Utf7

  // ---- The definition ---------------------------------------------------------------------------

  function Range(a: char, n: nat): string
    requires a as int + n <= 128
  {
    seq(n, i requires 0 <= i < n => (a as int + i) as char)
  }

  /** The base-64 alphabet, with a comma in the place of the slash. */
  function Letter(i: nat): char
    requires i < 64
  {
    (Range('A', 26) + Range('a', 26) + Range('0', 10) + "+,")[i]
  }

  predicate Direct(x: u16) {
    0x20 <= x <= 0x7e
  }

  /** How many code units the list starts with that are not printable ASCII. */
  function Other(xs: seq<u16>): (n: nat)
    ensures n <= |xs|
  {
    if xs == [] || Direct(xs[0]) then 0 else 1 + Other(xs[1..])
  }

  /** Code units as one number, the first the most significant. */
  function Big(xs: seq<u16>): nat {
    if xs == [] then 0 else Scaled(xs[0], 16 * (|xs| - 1)) + Big(xs[1..])
  }

  /** A number moved up by `n` bits. */
  function Scaled(v: nat, n: nat): nat {
    v * Pow2(n)
  }

  /** A number of `n` bits in base 64, the last digit filled up with zero bits. */
  function Base64(v: nat, n: nat): string
    requires v < Pow2(n)
    decreases n
  {
    if n == 0 then ""
    else if n <= 6 then
      Fills(v, n);
      [Letter(v * Pow2(6 - n))]
    else [Letter(High(v, n - 6, 6))] + Base64(Low(v, n - 6), n - 6)
  }

  /** The high `b` bits of a number of `a + b` bits, and the low `a`. */
  function High(v: nat, a: nat, b: nat): (r: nat)
    requires v < Pow2(a + b)
    ensures r < Pow2(b) && (b == 6 ==> r < 64) && (b == 16 ==> r < 0x1_0000)
  {
    Cuts(v, a, b);
    PowSix();
    v / Pow2(a)
  }

  function Low(v: nat, a: nat): (r: nat)
    ensures r < Pow2(a)
  {
    v % Pow2(a)
  }

  function NameOf(xs: seq<u16>): string
    decreases |xs|
  {
    if xs == [] then ""
    else if xs[0] == 0x26 then "&-" + NameOf(xs[1..])
    else if Direct(xs[0]) then [xs[0] as char] + NameOf(xs[1..])
    else
      var n := Other(xs);
      BigFits(xs[..n]);
      "&" + Base64(Big(xs[..n]), 16 * n) + "-" + NameOf(xs[n..])
  }

  lemma PowSum(a: nat, b: nat)
    ensures Pow2(a + b) == Pow2(a) * Pow2(b)
    decreases b
  {
    if b > 0 {
      PowSum(a, b - 1);
    }
  }

  lemma PowSix()
    ensures Pow2(6) == 64 && Pow2(16) == 0x1_0000
  {
    PowerValues();
    assert Pow2(16) == 4 * Pow2(14);
  }

  /** A number of `a + b` bits, cut into its high `b` and its low `a` bits. */
  lemma Cuts(v: nat, a: nat, b: nat)
    requires v < Pow2(a + b)
    ensures v / Pow2(a) < Pow2(b) && v % Pow2(a) < Pow2(a) && (b == 6 ==> v / Pow2(a) < 64)
  {
    hide Pow2;
    PowSum(a, b);
    PowSix();
    DivBelow(v, Pow2(a), Pow2(b));
  }

  lemma DivBelow(v: nat, unit: nat, n: nat)
    requires unit > 0 && v < unit * n
    ensures v / unit < n
  {
    if v / unit >= n {
      MulGrows(unit, n, v / unit);
    }
  }

  lemma MulGrows(unit: nat, n: nat, q: nat)
    requires n <= q
    ensures unit * n <= unit * q
  {
  }

  lemma Fills(v: nat, n: nat)
    requires v < Pow2(n) && n <= 6
    ensures v * Pow2(6 - n) < 64
  {
    hide Pow2;
    PowSum(n, 6 - n);
    PowSix();
    Shrinks(v, Pow2(n), Pow2(6 - n));
  }

  lemma Shrinks(v: nat, a: nat, b: nat)
    requires v < a && b > 0
    ensures v * b < a * b
  {
  }

  lemma {:induction false} BigFits(xs: seq<u16>)
    ensures Big(xs) < Pow2(16 * |xs|)
    decreases |xs|
  {
    if xs != [] {
      var m := 16 * (|xs| - 1);
      BigFits(xs[1..]);
      hide Pow2, Big;
      BigIs(xs);
      PowSum(m, 16);
      PowSix();
      Join(xs[0], 0x1_0000, Big(xs[1..]), Pow2(m));
    }
  }

  lemma BigIs(xs: seq<u16>)
    requires xs != []
    ensures Big(xs) == xs[0] * Pow2(16 * (|xs| - 1)) + Big(xs[1..])
  {
  }

  lemma Join(hi: nat, n: nat, lo: nat, unit: nat)
    requires hi < n && lo < unit
    ensures hi * unit + lo < unit * n
  {
    MulGrows(unit, hi + 1, n);
    assert unit * (hi + 1) == unit * hi + unit;
  }

  // ---- The encoder writes it --------------------------------------------------------------------

  lemma LetterIs(i: nat)
    requires i < 64
    ensures Letter(i) == Digit(i)
  {
  }

  /** The low `n` bits of a word above `m` more bits. */
  ghost function Stacked(u: nat, n: nat, m: nat, r: nat): (v: nat)
    requires r < Pow2(m)
    ensures v < Pow2(n + m)
  {
    StackedFits(u, n, m, r);
    u % Pow2(n) * Pow2(m) + r
  }

  lemma StackedFits(u: nat, n: nat, m: nat, r: nat)
    requires r < Pow2(m)
    ensures 0 <= u % Pow2(n) * Pow2(m) + r < Pow2(n + m)
  {
    hide Pow2;
    PowSum(n, m);
    Join(u % Pow2(n), Pow2(n), r, Pow2(m));
  }

  /** One digit off the top. */
  lemma Peel(u: nat, j: nat, m: nat, r: nat)
    requires r < Pow2(m)
    ensures Base64(Stacked(u, j + 6, m, r), j + 6 + m) == [Digit(SixBits(u, j))] + Base64(Stacked(u, j, m, r), j + m)
  {
    hide Pow2, Base64, Digit, SixBits, Letter, Stacked;
    var i := SixBits(u, j);
    SixBitsIs(u, j);
    StackedCuts(u, j, 6, m, r);
    BasePeels(Stacked(u, j + 6, m, r), j + 6 + m, i, Stacked(u, j, m, r));
    LetterIs(i);
  }

  lemma SixBitsIs(u: nat, j: nat)
    ensures SixBits(u, j) == u / Pow2(j) % Pow2(6)
  {
    PowSix();
  }

  /** The top `k` bits, and the rest. */
  lemma StackedCuts(u: nat, j: nat, k: nat, m: nat, r: nat)
    requires r < Pow2(m)
    ensures var v, unit := Stacked(u, j + k, m, r), Pow2(j + m);
            v / unit == u / Pow2(j) % Pow2(k) && v % unit == Stacked(u, j, m, r)
  {
    hide Pow2;
    var w, top, unit := u % Pow2(j + k), Pow2(j), Pow2(m);
    LowAgain(u, j, k);
    PowSum(j, m);
    Regroup(w, top, w / top, w % top, unit, r);
    DivIs(w * unit + r, Pow2(j + m), w / top, Stacked(u, j, m, r));
  }

  lemma Regroup(w: nat, top: nat, q: nat, s: nat, unit: nat, r: nat)
    requires w == top * q + s
    ensures w * unit + r == top * unit * q + (s * unit + r)
  {
    assert w * unit == top * q * unit + s * unit;
    assert top * q * unit == top * unit * q;
  }

  lemma BasePeels(v: nat, n: nat, q: nat, s: nat)
    requires 6 <= n && v < Pow2(n) && q < 64 && s < Pow2(n - 6) && v / Pow2(n - 6) == q && v % Pow2(n - 6) == s
    ensures Base64(v, n) == [Letter(q)] + Base64(s, n - 6)
  {
    hide Letter;
    if n == 6 {
      assert Pow2(0) == 1;
    }
  }

  /** The encoder's digits are the top of the number; what it keeps pending is the rest. */
  lemma {:induction false} DigitsAreTop(u: nat, n: nat, m: nat, r: nat)
    requires r < Pow2(m)
    ensures Base64(Stacked(u, n, m, r), n + m) == Digits(u, n) + Base64(Stacked(u, n % 6, m, r), n % 6 + m)
    decreases n
  {
    hide Pow2, Base64, Digit, SixBits, Digits, Stacked;
    var last := Base64(Stacked(u, n % 6, m, r), n % 6 + m);
    if n < 6 {
      WriteNone(u, n);
      AppendEmpty(last);
    } else {
      var i := SixBits(u, n - 6);
      DigitsAreTop(u, n - 6, m, r);
      Peel(u, n - 6, m, r);
      WriteOne(u, n, i);
      AppendAssoc([Digit(i)], Digits(u, n - 6), last);
    }
  }

  /** Bits from the middle, and the bits below them. */
  lemma LowAgain(u: nat, j: nat, k: nat)
    ensures u % Pow2(j + k) / Pow2(j) == u / Pow2(j) % Pow2(k) && u % Pow2(j + k) % Pow2(j) == u % Pow2(j)
  {
    hide Pow2;
    PowSum(j, k);
    Middle(u, Pow2(j), Pow2(k));
  }

  lemma Middle(u: nat, unit: nat, n: nat)
    requires unit > 0 && n > 0
    ensures u % (unit * n) / unit == u / unit % n && u % (unit * n) % unit == u % unit
  {
    var q, s := u / unit, u % unit;
    var hi, lo := q / n, q % n;
    Regroup2(u, unit, n, hi, lo, s);
    Join(lo, n, s, unit);
    DivIs(u, unit * n, hi, lo * unit + s);
    DivModOf(lo, unit, s);
  }

  lemma Regroup2(u: nat, unit: nat, n: nat, hi: nat, lo: nat, s: nat)
    requires u == unit * (n * hi + lo) + s
    ensures u == unit * n * hi + (lo * unit + s)
  {
    assert unit * (n * hi + lo) == unit * (n * hi) + unit * lo;
    assert unit * (n * hi) == unit * n * hi;
  }

  /** What the encoder, inside a run with some bits pending, still writes of the run. */
  ghost function Pending(e: Encoder, xs: seq<u16>): (v: nat)
    ensures v < Pow2(e.bits + 16 * |xs|)
  {
    BigFits(xs);
    Stacked(e.u, e.bits, 16 * |xs|, Big(xs))
  }

  lemma PendingShifts(e: Encoder, xs: seq<u16>)
    requires ValidEncoder(e) && xs != [] && Big(xs[1..]) < Pow2(16 * (|xs| - 1))
    ensures Pending(e, xs) == Stacked(ShiftUnit(e.u, xs[0]), e.bits + 16, 16 * (|xs| - 1), Big(xs[1..]))
  {
    hide Pow2, Big, ShiftUnit;
    var m := 16 * (|xs| - 1);
    ShiftLow(e.u, e.bits, xs[0]);
    BigIs(xs);
    PowSum(m, 16);
    PowSix();
    Rebase(e.u % Pow2(e.bits), Pow2(m), xs[0]);
  }

  lemma Rebase(p: nat, unit: nat, x: nat)
    ensures p * (unit * 0x1_0000) + x * unit == (p * 0x1_0000 + x) * unit
  {
  }

  /** A unit is shifted in below the pending bits. */
  lemma ShiftLow(u: nat, bits: nat, x: u16)
    requires bits == 0 || bits == 2 || bits == 4
    ensures ShiftUnit(u, x) % Pow2(bits + 16) == u % Pow2(bits) * 0x1_0000 + x
  {
    PowerValues();
    hide Pow2;
    PowSix();
    PowSum(bits, 16);
    if bits == 0 {
      ShiftBelow(u, 1, 0x1_0000, x);
    } else if bits == 2 {
      ShiftBelow(u, 4, 0x4000, x);
    } else {
      ShiftBelow(u, 16, 0x1000, x);
    }
  }

  lemma ShiftBelow(u: nat, low: nat, n: nat, x: u16)
    requires low > 0 && n > 0 && low * n == 0x1_0000
    ensures ShiftUnit(u, x) % (low * 0x1_0000) == u % low * 0x1_0000 + x
  {
    var v := u % 0x1_0000;
    var q, s := v / low, v % low;
    Regroup(v, low, q, s, 0x1_0000, x);
    Join(s, low, x, 0x1_0000);
    DivIs(v * 0x1_0000 + x, low * 0x1_0000, q, s * 0x1_0000 + x);
    LowOfLow(u, low, n);
  }

  lemma LowOfLow(u: nat, low: nat, n: nat)
    requires low > 0 && n > 0
    ensures u % (low * n) % low == u % low
  {
    var q, v := u / (low * n), u % (low * n);
    var a, s := v / low, v % low;
    assert u == low * n * q + (low * a + s);
    assert low * n * q == low * (n * q);
    DivIs(u, low, n * q + a, s);
  }

  lemma {:induction false} RunIsWritten(e: Encoder, xs: seq<u16>)
    requires ValidEncoder(e) && e.shifted
    ensures var n := Other(xs);
            EncodeUnits(e, xs) == Base64(Pending(e, xs[..n]), e.bits + 16 * n) + "-" + NameOf(xs[n..])
    decreases |xs|, 2
  {
    hide Pow2, Base64, Big;
    var n := Other(xs);
    if n == 0 {
      assert xs[..0] == [] && xs[0..] == xs;
      CloseIsWritten(e);
      if xs != [] {
        DirectIsWritten(e, xs);
      }
    } else {
      InsideIsWritten(e, xs);
    }
  }

  lemma NothingPending(e: Encoder)
    requires ValidEncoder(e)
    ensures Pending(e, []) == e.u % Pow2(e.bits)
  {
    assert Pow2(0) == 1;
  }

  lemma CloseIsWritten(e: Encoder)
    requires ValidEncoder(e) && e.shifted
    ensures Close(e) == Base64(Pending(e, []), e.bits) + "-"
  {
    PowerValues();
    NothingPending(e);
    if e.bits == 4 {
      PadAfterFour(e.u);
      LetterIs(e.u % 16 * 4);
    } else if e.bits == 2 {
      PadAfterTwo(e.u);
      LetterIs(e.u % 4 * 16);
    }
    hide Letter, Digit, Pow2;
  }

  lemma {:induction false} DirectIsWritten(e: Encoder, xs: seq<u16>)
    requires ValidEncoder(e) && e.shifted && xs != [] && Direct(xs[0])
    ensures EncodeUnits(e, xs) == Close(e) + NameOf(xs)
    decreases |xs|, 1
  {
    hide Close;
    var r := EncodeUnit(e, xs[0]);
    NameIsWritten(r.next, xs[1..]);
    AppendAssoc(Close(e), if xs[0] == 0x26 then "&-" else [xs[0] as char], NameOf(xs[1..]));
  }

  lemma {:induction false} InsideIsWritten(e: Encoder, xs: seq<u16>)
    requires ValidEncoder(e) && e.shifted && Other(xs) > 0
    ensures var n := Other(xs);
            EncodeUnits(e, xs) == Base64(Pending(e, xs[..n]), e.bits + 16 * n) + "-" + NameOf(xs[n..])
    decreases |xs|, 1
  {
    hide Pow2, Base64, Big, Digits, ShiftUnit, NameOf, Pending, Stacked, EncodeUnits, EncodeUnit, Other;
    OtherSplits(xs);
    var n, x := Other(xs), xs[0];
    var run, rest := xs[..n], xs[n..];
    var u, bits, m := ShiftUnit(e.u, x), e.bits + 16, 16 * (n - 1);
    var e' := Encoder(true, bits % 6, u);
    UnitInRun(e, xs);
    RunIsWritten(e', xs[1..]);
    BigFits(run[1..]);
    PendingShifts(e, run);
    PendingIs(e', run[1..]);
    DigitsAreTop(u, bits, m, Big(run[1..]));
    var tail := Base64(Pending(e', run[1..]), e'.bits + m);
    AppendAssoc4(Digits(u, bits), tail, "-", NameOf(rest));
    AppendAssoc(tail, "-", NameOf(rest));
  }

  lemma OtherSplits(xs: seq<u16>)
    requires Other(xs) > 0
    ensures var n := Other(xs);
            && xs != [] && !Direct(xs[0]) && Other(xs[1..]) == n - 1
            && xs[..n][0] == xs[0] && xs[..n][1..] == xs[1..][..n - 1] && xs[n..] == xs[1..][n - 1..]
  {
  }

  lemma UnitInRun(e: Encoder, xs: seq<u16>)
    requires ValidEncoder(e) && e.shifted && xs != [] && !Direct(xs[0])
    ensures var u, bits := ShiftUnit(e.u, xs[0]), e.bits + 16;
            var e' := Encoder(true, bits % 6, u);
            ValidEncoder(e') && EncodeUnits(e, xs) == Digits(u, bits) + EncodeUnits(e', xs[1..])
  {
    hide Digits, ShiftUnit;
    AppendEmpty(Digits(ShiftUnit(e.u, xs[0]), e.bits + 16));
  }

  lemma PendingIs(e: Encoder, xs: seq<u16>)
    requires Big(xs) < Pow2(16 * |xs|)
    ensures Pending(e, xs) == Stacked(e.u, e.bits, 16 * |xs|, Big(xs))
  {
  }

  lemma {:induction false} NameIsWritten(e: Encoder, xs: seq<u16>)
    requires ValidEncoder(e) && !e.shifted
    ensures EncodeUnits(e, xs) == NameOf(xs)
    decreases |xs|, 4
  {
    if xs != [] {
      if Direct(xs[0]) {
        NameIsWritten(EncodeUnit(e, xs[0]).next, xs[1..]);
        AppendEmpty(if xs[0] == 0x26 then "&-" else [xs[0] as char]);
      } else {
        RunStarts(e, xs);
      }
    }
  }

  lemma {:induction false} RunStarts(e: Encoder, xs: seq<u16>)
    requires ValidEncoder(e) && !e.shifted && xs != [] && !Direct(xs[0])
    ensures EncodeUnits(e, xs) == NameOf(xs)
    decreases |xs|, 3
  {
    hide Pow2, Base64, Big, Digits, ShiftUnit, Pending, EncodeUnits, EncodeUnit;
    var n := Other(xs);
    BigFits(xs[..n]);
    var open := Encoder(true, 0, e.u);
    RunIsWritten(open, xs);
    OpensRun(e, xs);
    NothingBefore(open, xs[..n]);
    var text := Base64(Big(xs[..n]), 16 * n);
    AppendAssoc4("&", text, "-", NameOf(xs[n..]));
    AppendAssoc(text, "-", NameOf(xs[n..]));
  }

  lemma NothingBefore(e: Encoder, xs: seq<u16>)
    requires ValidEncoder(e) && e.bits == 0
    ensures Pending(e, xs) == Big(xs)
  {
    assert Pow2(0) == 1;
  }

  lemma OpensRun(e: Encoder, xs: seq<u16>)
    requires ValidEncoder(e) && !e.shifted && xs != [] && !Direct(xs[0])
    ensures EncodeUnits(e, xs) == "&" + EncodeUnits(Encoder(true, 0, e.u), xs)
  {
    hide Digits, ShiftUnit;
    var r := EncodeUnit(e, xs[0]);
    var s := EncodeUnit(Encoder(true, 0, e.u), xs[0]);
    assert r.next == s.next && r.out == "&" + s.out;
    AppendAssoc("&", s.out, EncodeUnits(s.next, xs[1..]));
  }

  /** The streaming encoder writes what the definition says, for every list of code units. */
  lemma EncodeIsReference(xs: seq<u16>)
    ensures Encode(xs) == NameOf(xs)
  {
    NameIsWritten(INITIAL, xs);
  }

  /** A name of printable ASCII without an ampersand is written as it is. */
  lemma {:induction false} DirectNameIsItself(s: string)
    requires forall i :: 0 <= i < |s| ==> 0x20 <= s[i] as int <= 0x7e && s[i] != '&'
    ensures EncodeName(s) == s
    decreases |s|
  {
    EncodeIsReference(ToUtf16(s));
    DirectUnits(s);
  }

  lemma {:induction false} DirectUnits(s: string)
    requires forall i :: 0 <= i < |s| ==> 0x20 <= s[i] as int <= 0x7e && s[i] != '&'
    ensures NameOf(ToUtf16(s)) == s
    decreases |s|
  {
    if s != "" {
      DirectUnits(s[1..]);
      HeadTail(s);
      assert ToUtf16(s)[1..] == ToUtf16(s[1..]) && ToUtf16(s)[0] == s[0] as int;
    }
  }

  // ---- Reading a name ---------------------------------------------------------------------------

  /** The value of a digit. */
  ghost function Value(c: char): Option<nat> {
    if exists i :: 0 <= i < 64 && Letter(i) == c then
      var i :| 0 <= i < 64 && Letter(i) == c;
      Some(i)
    else None
  }

  ghost predicate AllDigits(run: string) {
    forall i :: 0 <= i < |run| ==> Value(run[i]).Some?
  }

  /** Base-64 digits as one number, the first the most significant. */
  ghost function Number(run: string): nat {
    if run == "" then 0 else Scaled(Worth(run[0]), 6 * (|run| - 1)) + Number(run[1..])
  }

  ghost function Worth(c: char): nat {
    if Value(c).Some? then Value(c).value else 0
  }

  /** The whole code units in a number of `n` bits, from the top; fewer than sixteen bits are dropped. */
  function UnitsOf(v: nat, n: nat): seq<u16>
    requires v < Pow2(n)
    decreases n
  {
    if n < 16 then []
    else [High(v, n - 16, 16)] + UnitsOf(Low(v, n - 16), n - 16)
  }

  /** How many characters stand before the first `-`. */
  function BeforeDash(s: string): (n: nat)
    ensures n <= |s| && (n < |s| ==> s[n] == '-')
  {
    if s == "" || s[0] == '-' then 0 else 1 + BeforeDash(s[1..])
  }

  /** The text after a run, without the `-` that ends it. */
  function AfterRun(s: string): string {
    var n := BeforeDash(s);
    if n == |s| then "" else s[n + 1..]
  }

  ghost function UnitsOfRun(run: string): Option<seq<u16>> {
    if !AllDigits(run) then None
    else
      NumberFits(run);
      Some(UnitsOf(Number(run), 6 * |run|))
  }

  ghost function Both(a: Option<seq<u16>>, b: Option<seq<u16>>): Option<seq<u16>> {
    if a.None? || b.None? then None else Some(a.value + b.value)
  }

  /** The code units of a text; an ampersand at its very end stands for itself. */
  ghost function TextUnits(s: string): Option<seq<u16>>
    decreases |s|
  {
    if s == "" then Some([])
    else if s[0] != '&' then Both(Some([s[0] as int % 0x1_0000]), TextUnits(s[1..]))
    else if |s| == 1 then Some([0x26])
    else if s[1] == '-' then Both(Some([0x26]), TextUnits(s[2..]))
    else Both(UnitsOfRun(s[1..][..BeforeDash(s[1..])]), TextUnits(AfterRun(s[1..])))
  }

  lemma ValueIs(c: char)
    ensures Value(c) == Rank(c)
  {
    if Rank(c).Some? {
      LetterIs(Rank(c).value);
      assert Letter(Rank(c).value) == c;
    }
    forall i | 0 <= i < 64 && Letter(i) == c
      ensures Rank(c) == Some(i)
    {
      LetterIs(i);
      RankOfDigit(i);
    }
  }

  lemma ValueFits(c: char)
    ensures Value(c).Some? ==> Value(c).value < 64
  {
  }

  lemma {:induction false} NumberFits(run: string)
    requires AllDigits(run)
    ensures Number(run) < Pow2(6 * |run|)
    decreases |run|
  {
    if run != "" {
      NumberFits(run[1..]);
      hide Pow2, Number, Value;
      var m := 6 * (|run| - 1);
      NumberIs(run);
      ValueFits(run[0]);
      PowSum(m, 6);
      PowSix();
      Join(Value(run[0]).value, 64, Number(run[1..]), Pow2(m));
    }
  }

  lemma NumberIs(run: string)
    requires AllDigits(run) && run != ""
    ensures AllDigits(run[1..]) && Value(run[0]).Some?
    ensures Number(run) == Value(run[0]).value * Pow2(6 * (|run| - 1)) + Number(run[1..])
  {
  }

  // ---- The decoder reads it ---------------------------------------------------------------------

  /** What the decoder, inside a run with some bits pending, still reads of the run. */
  ghost function RunUnits(bits: nat, v: nat, run: string): Option<seq<u16>> {
    if !AllDigits(run) then None
    else
      NumberFits(run);
      Some(UnitsOf(Stacked(v, bits, 6 * |run|, Number(run)), bits + 6 * |run|))
  }

  /** One code unit off the top. */
  lemma UnitOff(v: nat, j: nat, m: nat, r: nat)
    requires r < Pow2(m)
    ensures UnitsOf(Stacked(v, j + 16, m, r), j + 16 + m)
         == [v / Pow2(j) % 0x1_0000] + UnitsOf(Stacked(v, j, m, r), j + m)
  {
    hide Pow2, Stacked, UnitsOf;
    StackedCuts(v, j, 16, m, r);
    PowSix();
    UnitPeels(Stacked(v, j + 16, m, r), j + 16 + m);
  }

  lemma UnitPeels(v: nat, n: nat)
    requires 16 <= n && v < Pow2(n)
    ensures v / Pow2(n - 16) < 0x1_0000 && v % Pow2(n - 16) < Pow2(n - 16)
    ensures UnitsOf(v, n) == [v / Pow2(n - 16)] + UnitsOf(v % Pow2(n - 16), n - 16)
  {
    hide Pow2;
    assert High(v, n - 16, 16) == v / Pow2(n - 16) && Low(v, n - 16) == v % Pow2(n - 16);
  }

  lemma DigitShifts(v: nat, bits: nat, run: string)
    requires bits < 16 && AllDigits(run) && run != "" && AllDigits(run[1..])
    requires Number(run[1..]) < Pow2(6 * (|run| - 1)) && Number(run) < Pow2(6 * |run|)
    ensures Stacked(v, bits, 6 * |run|, Number(run))
         == Stacked(ShiftDigit(v, Value(run[0]).value), bits + 6, 6 * (|run| - 1), Number(run[1..]))
  {
    hide Pow2, Number, ShiftDigit, Value;
    var m, i := 6 * (|run| - 1), Value(run[0]).value;
    ValueFits(run[0]);
    ShiftDigitBelow(v, bits, i);
    NumberIs(run);
    PowSum(m, 6);
    PowSix();
    Rebase64(v % Pow2(bits), Pow2(m), i);
  }

  lemma Rebase64(p: nat, unit: nat, x: nat)
    ensures p * (unit * 64) + x * unit == (p * 64 + x) * unit
  {
  }

  lemma ShiftDigitBelow(v: nat, bits: nat, i: nat)
    requires bits < 16 && i < 64
    ensures ShiftDigit(v, i) % Pow2(bits + 6) == v % Pow2(bits) * 64 + i
  {
    hide Pow2;
    PowSum(bits, 6);
    PowSix();
    PowSum(bits, 26 - bits);
    PowTwentySix();
    var low, w := Pow2(bits), v % 0x400_0000;
    var q, s := w / low, w % low;
    Regroup(w, low, q, s, 64, i);
    Join(s, low, i, 64);
    DivIs(w * 64 + i, low * 64, q, s * 64 + i);
    LowOfLow(v, low, Pow2(26 - bits));
  }

  lemma PowTwentySix()
    ensures Pow2(26) == 0x400_0000
  {
    PowSix();
    PowerValues();
    PowSum(16, 10);
    hide Pow2;
  }

  lemma {:induction false} RunIsRead(bits: nat, v: nat, s: string)
    requires bits < 16
    ensures DecodeFrom(Shifted(bits, v), s) == Both(RunUnits(bits, v, s[..BeforeDash(s)]), TextUnits(AfterRun(s)))
    decreases |s|, 1
  {
    hide RunUnits, TextUnits, DecodeFrom, DecodeChar, Value;
    if s == "" || s[0] == '-' {
      assert s[..0] == "";
      NothingInRun(bits, v);
      if s == "" {
        EndOfRun(bits, v);
        TextIsEmpty();
      } else {
        DashEnds(bits, v, s);
        TextIsRead(s[1..]);
      }
      BothEmpty(TextUnits(AfterRun(s)));
    } else {
      DigitIsRead(bits, v, s);
    }
  }

  lemma NothingInRun(bits: nat, v: nat)
    requires bits < 16
    ensures RunUnits(bits, v, "") == Some([])
  {
  }

  lemma TextIsEmpty()
    ensures TextUnits("") == Some([])
  {
  }

  lemma BothEmpty(b: Option<seq<u16>>)
    ensures Both(Some([]), b) == b
  {
    if b.Some? {
      AppendEmpty(b.value);
    }
  }

  lemma DashEnds(bits: nat, v: nat, s: string)
    requires bits < 16 && s != "" && s[0] == '-'
    ensures DecodeFrom(Shifted(bits, v), s) == DecodeFrom(Plain, s[1..])
  {
    hide DecodeFrom;
    DecodeStep(Shifted(bits, v), s);
    var rest := DecodeFrom(Plain, s[1..]);
    if rest.Some? {
      AppendEmpty(rest.value);
    }
  }

  lemma {:induction false} DigitIsRead(bits: nat, v: nat, s: string)
    requires bits < 16 && s != "" && s[0] != '-'
    ensures DecodeFrom(Shifted(bits, v), s) == Both(RunUnits(bits, v, s[..BeforeDash(s)]), TextUnits(AfterRun(s)))
    decreases |s|, 0
  {
    hide RunUnits, TextUnits, DecodeFrom, Value;
    var n := BeforeDash(s);
    var run, rest := s[..n], s[1..];
    RunSplits(s);
    ValueIs(s[0]);
    DecodeStep(Shifted(bits, v), s);
    if Rank(s[0]).None? {
      BadRun(bits, v, run);
    } else {
      var v' := ShiftDigit(v, Rank(s[0]).value);
      var bits' := if bits + 6 < 16 then bits + 6 else bits - 10;
      var out: seq<u16> := if bits + 6 < 16 then [] else [v' / Pow2(bits - 10) % 0x1_0000];
      RunIsRead(bits', v', rest);
      DigitInRun(bits, v, run, out);
      hide ShiftDigit, Pow2;
      BothAgain(out, RunUnits(bits', v', run[1..]), TextUnits(AfterRun(s)));
    }
  }

  lemma RunSplits(s: string)
    requires s != "" && s[0] != '-'
    ensures var n := BeforeDash(s);
            && n > 0 && BeforeDash(s[1..]) == n - 1 && s[..n] != "" && s[..n][0] == s[0]
            && s[..n][1..] == s[1..][..n - 1] && AfterRun(s[1..]) == AfterRun(s)
  {
    var n := BeforeDash(s);
    if n < |s| {
      assert s[1..][n..] == s[n + 1..];
    }
  }

  lemma BadRun(bits: nat, v: nat, run: string)
    requires run != "" && Value(run[0]).None?
    ensures RunUnits(bits, v, run) == None
  {
  }

  /** A digit either adds six bits or completes a code unit. */
  lemma DigitInRun(bits: nat, v: nat, run: string, out: seq<u16>)
    requires bits < 16 && run != "" && Value(run[0]).Some?
    requires var v' := ShiftDigit(v, Value(run[0]).value);
             out == if bits + 6 < 16 then [] else [v' / Pow2(bits - 10) % 0x1_0000]
    ensures var v' := ShiftDigit(v, Value(run[0]).value);
            var bits' := if bits + 6 < 16 then bits + 6 else bits - 10;
            RunUnits(bits, v, run) == Both(Some(out), RunUnits(bits', v', run[1..]))
  {
    hide Pow2, Number, ShiftDigit, Value, Stacked, UnitsOf;
    var v' := ShiftDigit(v, Value(run[0]).value);
    var m := 6 * (|run| - 1);
    if AllDigits(run) {
      NumberFits(run);
      NumberFits(run[1..]);
      DigitShifts(v, bits, run);
      if bits + 6 >= 16 {
        UnitOff(v', bits - 10, m, Number(run[1..]));
      } else {
        BothEmpty(RunUnits(bits + 6, v', run[1..]));
      }
    } else {
      HeadTail(run);
      assert !AllDigits(run[1..]);
    }
  }

  lemma BothAgain(out: seq<u16>, a: Option<seq<u16>>, b: Option<seq<u16>>)
    ensures Prepend(out, Both(a, b)) == Both(Both(Some(out), a), b)
  {
    if a.Some? && b.Some? {
      AppendAssoc(out, a.value, b.value);
    }
  }

  lemma {:induction false} TextIsRead(s: string)
    ensures DecodeFrom(Plain, s) == TextUnits(s)
    decreases |s|, 2
  {
    hide DecodeFrom, DecodeChar, UnitsOfRun, RunUnits;
    if s == "" {
      NothingLeft();
    } else if s[0] != '&' {
      DecodeStep(Plain, s);
      PlainChar(s[0]);
      TextIsRead(s[1..]);
    } else if |s| == 1 {
      AmpersandAlone(s);
    } else if s[1] == '-' {
      AmpersandDash(s);
      TextIsRead(s[2..]);
    } else {
      AmpersandOpens(s);
      RunIsRead(0, 0, s[1..]);
      WholeRun(s[1..][..BeforeDash(s[1..])]);
    }
  }

  lemma WholeRun(run: string)
    ensures RunUnits(0, 0, run) == UnitsOfRun(run)
  {
    assert Pow2(0) == 1;
  }

  /** The streaming decoder reads what the definition says, for every text. */
  lemma DecodeIsReference(s: string)
    ensures Decode(s) == TextUnits(s)
  {
    hide DecodeFrom, TextUnits;
    DecodeIsFrom(s);
    TextIsRead(s);
    var d := DecodeFrom(Plain, s);
    if d.Some? {
      AppendEmpty(d.value);
    }
  }
}
