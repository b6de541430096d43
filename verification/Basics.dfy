/** Small value types shared by every model in the project. */
module Basics {

  datatype Option<+T> = None | Some(value: T)

  /** An octet, as read from a socket or a stored record. */
  type byte = b: int | 0 <= b < 256

  // Machine words, one past their largest value.
  const WORD32 := 0x1_0000_0000
  const WORD64 := 0x1_0000_0000_0000_0000

  type u64 = n: int | 0 <= n < WORD64

  function Pow2(n: nat): (p: nat)
    ensures p >= 1
  {
    if n == 0 then 1 else 2 * Pow2(n - 1)
  }

  /** The elements of an optional event, as a list of length zero or one. */
  function ToSeq<T>(o: Option<T>): seq<T> {
    match o
    case None => []
    case Some(x) => [x]
  }

  lemma AppendAssoc<T>(a: seq<T>, b: seq<T>, c: seq<T>)
    ensures a + b + c == a + (b + c)
  {
  }

  lemma AppendAssoc4<T>(a: seq<T>, b: seq<T>, c: seq<T>, d: seq<T>)
    ensures a + b + c + d == a + (b + (c + d))
  {
  }

  lemma AppendNested<T>(a: seq<T>, b: seq<T>, c: seq<T>, d: seq<T>, e: seq<T>)
    ensures (a + (b + (c + d))) + e == a + (b + (c + (d + e)))
  {
    AppendAssoc(c, d, e);
    AppendAssoc(b, c + d, e);
    AppendAssoc(a, b + (c + d), e);
  }

  lemma SliceOfSlice<T>(s: seq<T>, lo: nat, hi: nat, a: nat, b: nat)
    requires lo <= hi <= |s| && a <= b <= hi - lo
    ensures s[lo..hi][a..b] == s[lo + a..lo + b]
  {
    var t := s[lo..hi];
    assert forall i :: a <= i < b ==> t[i] == s[lo + i];
    assert t[a..b] == s[lo + a..lo + b];
  }

  lemma HeadTail<T>(s: seq<T>)
    requires s != []
    ensures s == [s[0]] + s[1..]
  {
  }

  lemma AppendEmpty<T>(s: seq<T>)
    ensures [] + s == s && s + [] == s
  {
  }

  // ---- Division ---------------------------------------------------------------------------------

  lemma DivIs(n: int, k: int, quotient: int, rest: int)
    requires k > 0 && 0 <= rest && n == k * quotient + rest && rest < k
    ensures n / k == quotient && n % k == rest
  {
    var e := n / k - quotient;
    assert k * e == rest - n % k;
    Bounded(e, k);
  }

  lemma Bounded(e: int, k: int)
    requires -k < k * e < k
    ensures e == 0
  {
  }

  lemma DivModOf(hi: int, unit: nat, lo: nat)
    requires lo < unit
    ensures (hi * unit + lo) / unit == hi && (hi * unit + lo) % unit == lo
  {
    DivIs(hi * unit + lo, unit, hi, lo);
  }
}
