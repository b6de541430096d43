/**
 Glob patterns: what a pattern text means, the compiled form, and when a text may be kept as a
 plain literal. `fold` is the case folding applied to literal characters; the identity when
 case matters.
 */
module GlobModel {
  import opened Basics

  datatype PatternChar =
    | WildcardMany(num: nat)
    | WildcardSingle
    | Char(c: char)

  type Fold = char -> string

  function NoFold(): Fold {
    c => [c]
  }

  /** The declarative meaning of a compiled pattern: a star stands for any run of characters. */
  ghost predicate Match(p: seq<PatternChar>, v: string)
    decreases |p|
  {
    if p == [] then v == ""
    else match p[0]
      case Char(c) => v != "" && v[0] == c && Match(p[1..], v[1..])
      case WildcardSingle => v != "" && Match(p[1..], v[1..])
      case WildcardMany(_) => exists k :: 0 <= k <= |v| && Match(p[1..], v[k..])
  }

  /** The declarative meaning of a pattern text; a final backslash is ignored. */
  ghost predicate Means(fold: Fold, t: string, v: string)
    decreases |t|
  {
    if t == "" then v == ""
    else if t[0] == '*' then exists k :: 0 <= k <= |v| && Means(fold, t[1..], v[k..])
    else if t[0] == '?' then v != "" && Means(fold, t[1..], v[1..])
    else if t[0] == '\\' then
      if |t| == 1 then v == "" else MeansLiteral(fold, t[1], v) && Means(fold, t[2..], v[|fold(t[1])|..])
    else MeansLiteral(fold, t[0], v) && Means(fold, t[1..], v[|fold(t[0])|..])
  }

  predicate MeansLiteral(fold: Fold, c: char, v: string) {
    fold(c) <= v
  }

  /** The number of stars a text starts with. */
  function StarRun(t: string): (n: nat)
    ensures n <= |t|
    ensures n >= 1 <==> t != "" && t[0] == '*'
  {
    if t != "" && t[0] == '*' then 1 + StarRun(t[1..]) else 0
  }

  function Chars(s: string): seq<PatternChar> {
    if s == "" then [] else [Char(s[0])] + Chars(s[1..])
  }

  /** The compiled form: one item for a run of stars, escapes resolved. */
  function Compiled(fold: Fold, t: string): seq<PatternChar>
    decreases |t|
  {
    if t == "" then []
    else if t[0] == '*' then [WildcardMany(StarRun(t))] + Compiled(fold, t[StarRun(t)..])
    else if t[0] == '?' then [WildcardSingle] + Compiled(fold, t[1..])
    else if t[0] == '\\' then
      if |t| == 1 then [] else Chars(fold(t[1])) + Compiled(fold, t[2..])
    else Chars(fold(t[0])) + Compiled(fold, t[1..])
  }

  lemma {:induction false} MatchChars(s: string, p: seq<PatternChar>, v: string)
    ensures Match(Chars(s) + p, v) <==> s <= v && Match(p, v[|s|..])
    decreases |s|
  {
    if s == "" {
      assert Chars(s) + p == p && v[0..] == v;
    } else {
      var q := Chars(s) + p;
      assert q[0] == Char(s[0]) && q[1..] == Chars(s[1..]) + p;
      if v != "" && v[0] == s[0] {
        MatchChars(s[1..], p, v[1..]);
        assert s <= v <==> s[1..] <= v[1..] by {
          HeadTail(s);
          HeadTail(v);
        }
        if s <= v {
          assert v[1..][|s| - 1..] == v[|s|..];
        }
      }
    }
  }

  /** A run of stars means what one star means. */
  lemma {:induction false} StarRunMeans(fold: Fold, t: string, v: string)
    requires t != "" && t[0] == '*'
    ensures Means(fold, t, v) <==> exists k :: 0 <= k <= |v| && Means(fold, t[StarRun(t)..], v[k..])
    decreases |t|
  {
    var n := StarRun(t);
    if n == 1 {
    } else {
      var rest := t[n..];
      assert t[1..][n - 1..] == rest;
      assert t[1..] != "" && t[1] == '*';
      forall k | 0 <= k <= |v|
        ensures Means(fold, t[1..], v[k..]) <==> exists j :: 0 <= j <= |v| - k && Means(fold, rest, v[k..][j..])
      {
        StarRunMeans(fold, t[1..], v[k..]);
      }
      if Means(fold, t, v) {
        var k :| 0 <= k <= |v| && Means(fold, t[1..], v[k..]);
        var j :| 0 <= j <= |v| - k && Means(fold, rest, v[k..][j..]);
        assert v[k..][j..] == v[k + j..];
      }
      if k :| 0 <= k <= |v| && Means(fold, rest, v[k..]) {
        assert v[k..] == v[k..][0..];
        assert Means(fold, t[1..], v[k..]);
      }
    }
  }

  /** Compiling keeps the meaning of a pattern text. */
  lemma {:induction false} CompiledMeans(fold: Fold, t: string, v: string)
    ensures Match(Compiled(fold, t), v) <==> Means(fold, t, v)
    decreases |t|, 0
  {
    var p := Compiled(fold, t);
    if t == "" {
    } else if t[0] == '*' {
      var rest := t[StarRun(t)..];
      assert p[1..] == Compiled(fold, rest);
      forall k | 0 <= k <= |v|
        ensures Match(p[1..], v[k..]) <==> Means(fold, rest, v[k..])
      {
        CompiledMeans(fold, rest, v[k..]);
      }
      StarRunMeans(fold, t, v);
    } else if t[0] == '?' {
      assert p[1..] == Compiled(fold, t[1..]);
      if v != "" {
        CompiledMeans(fold, t[1..], v[1..]);
      }
    } else if t[0] == '\\' {
      if |t| > 1 {
        LiteralMeans(fold, t[1], t[2..], v);
      }
    } else {
      LiteralMeans(fold, t[0], t[1..], v);
    }
  }

  lemma {:induction false} LiteralMeans(fold: Fold, c: char, rest: string, v: string)
    ensures Match(Chars(fold(c)) + Compiled(fold, rest), v)
            <==> MeansLiteral(fold, c, v) && Means(fold, rest, v[|fold(c)|..])
    decreases |rest|, 1
  {
    MatchChars(fold(c), Compiled(fold, rest), v);
    if fold(c) <= v {
      CompiledMeans(fold, rest, v[|fold(c)|..]);
    }
  }

  // ---- Literals -------------------------------------------------------------------------------

  predicate IsWildcard(c: char) {
    c == '*' || c == '?'
  }

  /** The text has a wildcard that does not directly follow a backslash. */
  predicate IsGlob(t: string) {
    exists i :: 0 <= i < |t| && IsWildcard(t[i]) && (i == 0 || t[i - 1] != '\\')
  }

  /** The text without its backslashes. */
  function Strip(t: string): string {
    if t == "" then ""
    else (if t[0] == '\\' then "" else [t[0]]) + Strip(t[1..])
  }

  /** Every backslash goes. */
  lemma {:induction false} StripDropsBackslash(a: string, b: string)
    ensures Strip(a + "\\" + b) == Strip(a + b)
    decreases |a|
  {
    if a == "" {
      assert a + "\\" + b == "\\" + b && a + b == b;
      assert ("\\" + b)[1..] == b;
    } else {
      assert (a + "\\" + b)[1..] == a[1..] + "\\" + b && (a + b)[1..] == a[1..] + b;
      StripDropsBackslash(a[1..], b);
    }
  }

  /** The last character makes a glob only if it is a wildcard and the one before it is no backslash. */
  lemma GlobByLast(t: string, c: char)
    ensures !IsGlob("")
    ensures IsGlob(t + [c]) <==> IsGlob(t) || ((c == '*' || c == '?') && (t == "" || t[|t| - 1] != '\\'))
  {
    var s := t + [c];
    assert forall i :: 0 <= i < |t| ==> s[i] == t[i];
    assert s[|t|] == c;
  }

  predicate HasAdjacentBackslashes(t: string) {
    exists i :: 0 <= i < |t| - 1 && t[i] == '\\' && t[i + 1] == '\\'
  }

  /** Dropping a first character, or an escape, keeps a text free of wildcards. */
  lemma NotGlobTail(t: string, n: nat)
    requires !IsGlob(t) && 0 < n <= |t| && t[n - 1] != '\\'
    ensures !IsGlob(t[n..])
  {
    assert forall i :: 0 <= i < |t| - n ==> t[n..][i] == t[n + i];
  }

  lemma NotAdjacentTail(t: string, n: nat)
    requires !HasAdjacentBackslashes(t) && n <= |t|
    ensures !HasAdjacentBackslashes(t[n..])
  {
    assert forall i :: 0 <= i < |t| - n ==> t[n..][i] == t[n + i];
  }

  /** Without wildcards and without adjacent backslashes, a text means itself minus its backslashes. */
  lemma {:induction false} LiteralMeansItself(t: string, v: string)
    requires !IsGlob(t) && !HasAdjacentBackslashes(t)
    ensures Means(NoFold(), t, v) <==> v == Strip(t)
    decreases |t|, 0
  {
    if t == "" {
    } else if t[0] == '\\' {
      if |t| > 1 {
        assert t[1] != '\\';
        NotGlobTail(t, 2);
        NotAdjacentTail(t, 2);
        assert Strip(t) == "" + Strip(t[1..]) && t[1..][1..] == t[2..];
        assert Strip(t) == [t[1]] + Strip(t[2..]);
        StripHead(t[1], t[2..], v);
      } else {
        assert t[1..] == "";
      }
    } else {
      assert !IsWildcard(t[0]);
      NotGlobTail(t, 1);
      NotAdjacentTail(t, 1);
      StripHead(t[0], t[1..], v);
    }
  }

  lemma {:induction false} StripHead(c: char, rest: string, v: string)
    requires !IsGlob(rest) && !HasAdjacentBackslashes(rest)
    ensures MeansLiteral(NoFold(), c, v) && Means(NoFold(), rest, v[1..]) <==> v == [c] + Strip(rest)
    decreases |rest|, 1
  {
    if v != "" {
      LiteralMeansItself(rest, v[1..]);
      HeadTail(v);
      assert MeansLiteral(NoFold(), c, v) <==> v[0] == c;
    }
  }

  /** With adjacent backslashes, everything the text means contains a backslash. */
  lemma {:induction false} AdjacentMeansBackslash(t: string, v: string)
    requires !IsGlob(t) && HasAdjacentBackslashes(t) && Means(NoFold(), t, v)
    ensures '\\' in v
    decreases |t|
  {
    if t[0] == '\\' {
      assert v[0] == t[1];
      if t[1] != '\\' {
        NotGlobTail(t, 2);
        var i :| 0 <= i < |t| - 1 && t[i] == '\\' && t[i + 1] == '\\';
        assert t[2..][i - 2] == '\\' && t[2..][i - 2 + 1] == '\\';
        AdjacentMeansBackslash(t[2..], v[1..]);
      }
    } else {
      assert !IsWildcard(t[0]);
      NotGlobTail(t, 1);
      var i :| 0 <= i < |t| - 1 && t[i] == '\\' && t[i + 1] == '\\';
      assert t[1..][i - 1] == '\\' && t[1..][i - 1 + 1] == '\\';
      AdjacentMeansBackslash(t[1..], v[1..]);
    }
  }

  lemma {:induction false} StripHasNoBackslash(t: string)
    ensures '\\' !in Strip(t)
  {
    if t != "" {
      StripHasNoBackslash(t[1..]);
    }
  }

  /** What the index answers for a key after inserting one text. */
  ghost predicate Indexed(t: string, key: string) {
    if IsGlob(t) then Match(Compiled(NoFold(), t), key) else key == Strip(t)
  }

  /** The texts the index handles as their meaning says. */
  predicate Faithful(t: string) {
    IsGlob(t) || !HasAdjacentBackslashes(t)
  }

  lemma FaithfulIsIndexed(t: string, key: string)
    requires Faithful(t)
    ensures Indexed(t, key) <==> Means(NoFold(), t, key)
  {
    if IsGlob(t) {
      CompiledMeans(NoFold(), t, key);
    } else {
      LiteralMeansItself(t, key);
    }
  }

  /**
   The index answers by the meaning of a text for every key exactly when the text has an
   unescaped wildcard or no two adjacent backslashes.
   */
  lemma IndexedIffFaithful(t: string)
    ensures (forall key :: Indexed(t, key) <==> Means(NoFold(), t, key)) <==> Faithful(t)
  {
    if Faithful(t) {
      forall key
        ensures Indexed(t, key) <==> Means(NoFold(), t, key)
      {
        FaithfulIsIndexed(t, key);
      }
    } else {
      var key := Strip(t);
      StripHasNoBackslash(t);
      if Means(NoFold(), t, key) {
        AdjacentMeansBackslash(t, key);
      }
      assert Indexed(t, key) && !Means(NoFold(), t, key);
    }
  }
}
