/** The glob compiler, matcher and index as they run. */
module Glob {
  import opened Basics
  import opened GlobModel

  // ---- Compiling ------------------------------------------------------------------------------

  /** What is still to be emitted: after a backslash the next character is literal. */
  ghost function Remaining(fold: Fold, rest: string, escaped: bool): seq<PatternChar> {
    if !escaped then Compiled(fold, rest)
    else if rest == "" then []
    else Chars(fold(rest[0])) + Compiled(fold, rest[1..])
  }

  /** The inner loop over a run of stars. */
  method CountStars(pattern: string, pos: nat) returns (num: nat)
    requires pos < |pattern| && pattern[pos] == '*'
    ensures num == StarRun(pattern[pos..])
  {
    num := 1;
    assert pattern[pos..][1..] == pattern[pos + 1..];
    while pos + num < |pattern| && pattern[pos + num] == '*'
      invariant 1 <= num && pos + num <= |pattern|
      invariant StarRun(pattern[pos..]) == num + StarRun(pattern[pos + num..])
    {
      assert pattern[pos + num..][1..] == pattern[pos + num + 1..];
      num := num + 1;
    }
  }

  lemma RemainingEscape(fold: Fold, rest: string)
    requires rest != "" && rest[0] == '\\'
    ensures Remaining(fold, rest, false) == Remaining(fold, rest[1..], true)
  {
    if |rest| > 1 {
      assert rest[1..][1..] == rest[2..];
    }
  }

  lemma RemainingStar(fold: Fold, rest: string)
    requires rest != "" && rest[0] == '*'
    ensures Remaining(fold, rest, false) == [WildcardMany(StarRun(rest))] + Remaining(fold, rest[StarRun(rest)..], false)
  {
  }

  lemma RemainingSingle(fold: Fold, rest: string)
    requires rest != "" && rest[0] == '?'
    ensures Remaining(fold, rest, false) == [WildcardSingle] + Remaining(fold, rest[1..], false)
  {
  }

  lemma RemainingLiteral(fold: Fold, rest: string, escaped: bool)
    requires rest != "" && (escaped || !(IsWildcard(rest[0]) || rest[0] == '\\'))
    ensures Remaining(fold, rest, escaped) == Chars(fold(rest[0])) + Remaining(fold, rest[1..], false)
  {
  }

  method Compile(fold: Fold, pattern: string) returns (chars: seq<PatternChar>)
    ensures chars == Compiled(fold, pattern)
  {
    chars := [];
    var escaped, pos := false, 0;
    assert pattern[0..] == pattern;
    AppendEmpty(Remaining(fold, pattern, false));
    while pos < |pattern|
      invariant 0 <= pos <= |pattern|
      invariant chars + Remaining(fold, pattern[pos..], escaped) == Compiled(fold, pattern)
    {
      hide Remaining, Compiled, Chars, StarRun;
      var c := pattern[pos];
      ghost var rest := pattern[pos..];
      assert rest[0] == c && rest[1..] == pattern[pos + 1..];
      if c == '*' && !escaped {
        var num := CountStars(pattern, pos);
        RemainingStar(fold, rest);
        assert rest[num..] == pattern[pos + num..];
        AppendAssoc(chars, [WildcardMany(num)], Remaining(fold, pattern[pos + num..], false));
        chars, pos := chars + [WildcardMany(num)], pos + num;
      } else if c == '?' && !escaped {
        RemainingSingle(fold, rest);
        AppendAssoc(chars, [WildcardSingle], Remaining(fold, pattern[pos + 1..], false));
        chars, pos := chars + [WildcardSingle], pos + 1;
      } else if c == '\\' && !escaped {
        RemainingEscape(fold, rest);
        escaped, pos := true, pos + 1;
      } else {
        RemainingLiteral(fold, rest, escaped);
        AppendAssoc(chars, Chars(fold(c)), Remaining(fold, pattern[pos + 1..], false));
        escaped := false;
        chars, pos := chars + Chars(fold(c)), pos + 1;
      }
    }
    assert pattern[pos..] == "";
    AppendEmpty(chars);
  }

  // ---- Matching: one backtrack point is enough --------------------------------------------------

  /** The rest of the pattern matches the rest of the value. */
  ghost predicate At(p: seq<PatternChar>, v: string, i: nat, j: nat)
    requires i <= |p| && j <= |v|
  {
    Match(p[i..], v[j..])
  }

  lemma AtEnd(p: seq<PatternChar>, v: string, j: nat)
    requires j <= |v|
    ensures At(p, v, |p|, j) <==> j == |v|
  {
  }

  lemma AtOne(p: seq<PatternChar>, v: string, i: nat, j: nat)
    requires i < |p| && j <= |v| && !p[i].WildcardMany?
    ensures At(p, v, i, j) <==> j < |v| && (p[i].Char? ==> v[j] == p[i].c) && At(p, v, i + 1, j + 1)
  {
    assert p[i..][1..] == p[i + 1..];
    if j < |v| {
      assert v[j..][1..] == v[j + 1..];
    }
  }

  lemma AtStar(p: seq<PatternChar>, v: string, i: nat, j: nat)
    requires i < |p| && j <= |v| && p[i].WildcardMany?
    ensures var i' := i + 1;
            At(p, v, i, j) <==> exists k :: j <= k <= |v| && At(p, v, i', k)
  {
    assert p[i..][1..] == p[i + 1..];
    if At(p, v, i, j) {
      var k :| 0 <= k <= |v[j..]| && Match(p[i..][1..], v[j..][k..]);
      assert v[j..][k..] == v[j + k..];
      assert At(p, v, i + 1, j + k);
    }
    var i' := i + 1;
    if k :| j <= k <= |v| && At(p, v, i', k) {
      assert v[j..][k - j..] == v[k..];
      assert Match(p[i..][1..], v[j..][k - j..]);
    }
  }

  /** A star either takes nothing, or one more character. */
  lemma AtStarUnrolled(p: seq<PatternChar>, v: string, i: nat, j: nat)
    requires i < |p| && j <= |v| && p[i].WildcardMany?
    ensures At(p, v, i, j) <==> At(p, v, i + 1, j) || (j < |v| && At(p, v, i, j + 1))
  {
    AtStar(p, v, i, j);
    if j < |v| {
      AtStar(p, v, i, j + 1);
    }
  }

  /** Items that are not stars take exactly one character each. */
  lemma {:induction false} AtSegment(p: seq<PatternChar>, v: string, i: nat, n: nat, j: nat)
    requires i + n <= |p| && j <= |v| && At(p, v, i, j)
    requires forall m :: i <= m < i + n ==> !p[m].WildcardMany?
    ensures j + n <= |v| && At(p, v, i + n, j + n)
    decreases n
  {
    if n > 0 {
      AtOne(p, v, i, j);
      AtSegment(p, v, i + 1, n - 1, j + 1);
    }
  }

  /** Reaching a second star makes the first one's backtrack point useless. */
  lemma LaterStarIsEnough(p: seq<PatternChar>, v: string, star: nat, next: nat, i: nat, j: nat)
    requires star < i < |p| && p[star].WildcardMany? && p[i].WildcardMany?
    requires j <= |v| && next <= |v| && next + (i - star - 1) == j + 1
    requires forall m :: star < m < i ==> !p[m].WildcardMany?
    requires At(p, v, star, next)
    ensures At(p, v, i, j)
  {
    AtStar(p, v, star, next);
    var k :| next <= k <= |v| && At(p, v, star + 1, k);
    var n := i - star - 1;
    AtSegment(p, v, star + 1, n, k);
    AtStar(p, v, i, k + n);
    AtStar(p, v, i, j);
  }

  /** The matcher's loop, with the position of the last star as its only memory. */
  method Matches(p: seq<PatternChar>, v: string) returns (b: bool)
    ensures b <==> Match(p, v)
  {
    var px, nx, nextPx, nextNx := 0, 0, 0, 0;
    assert p[0..] == p && v[0..] == v;
    while px < |p| || nx < |v|
      invariant 0 <= px <= |p| && 0 <= nx <= |v| && 0 <= nextNx <= |v| + 1
      invariant nextNx == 0 ==> (Match(p, v) <==> At(p, v, px, nx))
      invariant nextNx > 0 ==> 0 <= nextPx <= px && nextPx < |p| && p[nextPx].WildcardMany?
      invariant nextNx > 0 ==> (Match(p, v) <==> At(p, v, px, nx) || (nextNx <= |v| && At(p, v, nextPx, nextNx)))
      invariant nextNx > 0 && px == nextPx ==> nx == nextNx
      invariant nextNx > 0 && px > nextPx ==> nextNx + (px - nextPx - 1) == nx + 1
      invariant nextNx > 0 ==> forall m :: nextPx < m < px ==> !p[m].WildcardMany?
      decreases |v| + 1 - (if nextNx > 0 && px == nextPx then nextNx + 1 else nextNx), |p| - px
    {
      if px < |p| {
        match p[px] {
          case WildcardMany(_) =>
            AtStarUnrolled(p, v, px, nx);
            if nextNx > 0 && px > nextPx && nextNx <= |v| && At(p, v, nextPx, nextNx) {
              LaterStarIsEnough(p, v, nextPx, nextNx, px, nx);
            }
            nextPx, nextNx, px := px, nx + 1, px + 1;
            continue;
          case _ =>
            AtOne(p, v, px, nx);
            if nx < |v| && (p[px].Char? ==> v[nx] == p[px].c) {
              px, nx := px + 1, nx + 1;
              continue;
            }
        }
      } else {
        AtEnd(p, v, nx);
      }
      if 0 < nextNx && nextNx <= |v| {
        px, nx := nextPx, nextNx;
        continue;
      }
      return false;
    }
    AtEnd(p, v, nx);
    b := true;
  }

  // ---- The index --------------------------------------------------------------------------------

  datatype Compilation = Pattern(chars: seq<PatternChar>) | Literal(text: string)

  method RemoveBackslashes(t: string) returns (r: string)
    ensures r == Strip(t)
  {
    r := "";
    for k := 0 to |t|
      invariant r + Strip(t[k..]) == Strip(t)
    {
      assert t[k..][1..] == t[k + 1..];
      if t[k] != '\\' {
        AppendAssoc(r, [t[k]], Strip(t[k + 1..]));
        r := r + [t[k]];
      } else {
        AppendEmpty(Strip(t[k + 1..]));
      }
    }
    AppendEmpty(r);
  }

  lemma {:induction false} StripPlain(t: string)
    requires '\\' !in t
    ensures Strip(t) == t
  {
    if t != "" {
      assert t[0] in t;
      StripPlain(t[1..]);
      HeadTail(t);
    }
  }

  /** Decide whether a text needs the matcher at all. */
  method TryCompile(pattern: string) returns (r: Compilation)
    ensures r == if IsGlob(pattern) then Pattern(Compiled(NoFold(), pattern)) else Literal(Strip(pattern))
  {
    var last, hasEscape, isGlob := '\0', false, false;
    for k := 0 to |pattern|
      invariant last == if k == 0 then '\0' else pattern[k - 1]
      invariant hasEscape <==> '\\' in pattern[..k]
      invariant isGlob <==> exists i :: 0 <= i < k && IsWildcard(pattern[i]) && (i == 0 || pattern[i - 1] != '\\')
    {
      var c := pattern[k];
      if c == '\\' {
        hasEscape := true;
      } else if IsWildcard(c) && last != '\\' {
        isGlob := true;
      }
      last := c;
    }
    assert pattern[..|pattern|] == pattern;
    if isGlob {
      var chars := Compile(NoFold(), pattern);
      r := Pattern(chars);
    } else if hasEscape {
      var text := RemoveBackslashes(pattern);
      r := Literal(text);
    } else {
      StripPlain(pattern);
      r := Literal(pattern);
    }
  }

  /** The literals among the inserted texts. */
  function Literals(history: seq<string>): set<string> {
    set i | 0 <= i < |history| && !IsGlob(history[i]) :: Strip(history[i])
  }

  /** The compiled patterns among the inserted texts, oldest first. */
  function Patterns(history: seq<string>): seq<seq<PatternChar>> {
    if history == [] then []
    else
      var last := history[|history| - 1];
      Patterns(history[..|history| - 1]) + if IsGlob(last) then [Compiled(NoFold(), last)] else []
  }

  ghost predicate AnyMatches(patterns: seq<seq<PatternChar>>, key: string) {
    exists i :: 0 <= i < |patterns| && Match(patterns[i], key)
  }

  /** Some inserted text covers the key, taken as the index takes it. */
  ghost predicate AnyIndexed(history: seq<string>, key: string) {
    exists i :: 0 <= i < |history| && Indexed(history[i], key)
  }

  /** Some inserted text covers the key by its meaning. */
  ghost predicate AnyMeans(history: seq<string>, key: string) {
    exists i :: 0 <= i < |history| && Means(NoFold(), history[i], key)
  }

  predicate AllFaithful(history: seq<string>) {
    forall i :: 0 <= i < |history| ==> Faithful(history[i])
  }

  lemma AnyMatchesSnoc(patterns: seq<seq<PatternChar>>, p: seq<PatternChar>, key: string)
    ensures AnyMatches(patterns + [p], key) <==> AnyMatches(patterns, key) || Match(p, key)
  {
    hide Match;
    var all := patterns + [p];
    assert all[|patterns|] == p;
    assert forall i :: 0 <= i < |patterns| ==> all[i] == patterns[i];
  }

  lemma AnyIndexedSnoc(history: seq<string>, t: string, key: string)
    ensures AnyIndexed(history + [t], key) <==> AnyIndexed(history, key) || Indexed(t, key)
  {
    hide Indexed;
    var all := history + [t];
    assert all[|history|] == t;
    assert forall i :: 0 <= i < |history| ==> all[i] == history[i];
  }

  lemma LiteralsSnoc(history: seq<string>, t: string)
    ensures Literals(history + [t]) == Literals(history) + if IsGlob(t) then {} else {Strip(t)}
  {
    hide IsGlob, Strip;
    var all := history + [t];
    assert all[|history|] == t;
    assert forall i :: 0 <= i < |history| ==> all[i] == history[i];
  }

  /** Looking a key up in the literals and then the patterns is looking for a text that covers it. */
  lemma {:induction false} FoundIsIndexed(history: seq<string>, key: string)
    ensures (key in Literals(history) || AnyMatches(Patterns(history), key)) <==> AnyIndexed(history, key)
    decreases |history|
  {
    if history != [] {
      var front, last := history[..|history| - 1], history[|history| - 1];
      assert history == front + [last];
      FoundIsIndexed(front, key);
      AnyIndexedSnoc(front, last, key);
      LiteralsSnoc(front, last);
      if IsGlob(last) {
        AnyMatchesSnoc(Patterns(front), Compiled(NoFold(), last), key);
      } else {
        AppendEmpty(Patterns(front));
      }
      hide Literals, AnyIndexed, AnyMatches, Match;
    }
  }

  lemma FaithfulMeans(history: seq<string>, key: string)
    requires AllFaithful(history)
    ensures AnyIndexed(history, key) <==> AnyMeans(history, key)
  {
    forall i | 0 <= i < |history|
      ensures Indexed(history[i], key) <==> Means(NoFold(), history[i], key)
    {
      FaithfulIsIndexed(history[i], key);
    }
    hide Indexed, Means;
  }

  /** A set of literals and patterns; `history` is the list of texts inserted so far. */
  class GlobSet {
    var entries: set<string>
    var patterns: seq<seq<PatternChar>>
    ghost var history: seq<string>

    ghost predicate Valid()
      reads this
    {
      entries == Literals(history) && patterns == Patterns(history)
    }

    constructor ()
      ensures Valid() && history == []
    {
      entries, patterns, history := {}, [], [];
    }

    method Insert(pattern: string)
      requires Valid()
      modifies this
      ensures Valid() && history == old(history) + [pattern]
    {
      var r := TryCompile(pattern);
      match r {
        case Pattern(chars) => patterns := patterns + [chars];
        case Literal(text) => entries := entries + {text};
      }
      ghost var before := history;
      history := history + [pattern];
      assert history[..|history| - 1] == before;
      LiteralsSnoc(before, pattern);
    }

    /**
     A key is found when some inserted text, taken as the index takes it, covers the key; for
     texts the index handles faithfully, when some inserted text means the key.
     */
    method Contains(key: string) returns (b: bool)
      requires Valid()
      ensures b <==> AnyIndexed(history, key)
      ensures AllFaithful(history) ==> (b <==> AnyMeans(history, key))
    {
      hide Match, AnyIndexed, AnyMeans;
      b := key in entries;
      var k := 0;
      while !b && k < |patterns|
        invariant 0 <= k <= |patterns|
        invariant !b ==> key !in entries && forall i :: 0 <= i < k ==> !Match(patterns[i], key)
        invariant b ==> key in entries || AnyMatches(patterns, key)
      {
        b := Matches(patterns[k], key);
        k := k + 1;
      }
      FoundIsIndexed(history, key);
      if AllFaithful(history) {
        FaithfulMeans(history, key);
      }
    }
  }

  // ---- The map: literals first, then the oldest pattern -----------------------------------------

  datatype Insertion<+V> = Insertion(pattern: string, value: V)

  /** The value last inserted for a literal. */
  function LatestLiteral<V>(history: seq<Insertion<V>>, key: string): Option<V> {
    if history == [] then None
    else
      var last := history[|history| - 1];
      if !IsGlob(last.pattern) && Strip(last.pattern) == key then Some(last.value)
      else LatestLiteral(history[..|history| - 1], key)
  }

  /** The value of the first inserted pattern that matches. */
  ghost function EarliestGlob<V>(history: seq<Insertion<V>>, key: string): Option<V> {
    if history == [] then None
    else if IsGlob(history[0].pattern) && Match(Compiled(NoFold(), history[0].pattern), key)
    then Some(history[0].value)
    else EarliestGlob(history[1..], key)
  }

  /** The lookup rule: the latest literal for the key, or else the earliest matching pattern. */
  ghost function Lookup<V>(history: seq<Insertion<V>>, key: string): Option<V> {
    var l := LatestLiteral(history, key);
    if l.Some? then l else EarliestGlob(history, key)
  }

  /** The compiled patterns with their values, oldest first. */
  function Entries<V>(history: seq<Insertion<V>>): seq<(seq<PatternChar>, V)> {
    if history == [] then []
    else
      var h := history[0];
      (if IsGlob(h.pattern) then [(Compiled(NoFold(), h.pattern), h.value)] else []) + Entries(history[1..])
  }

  ghost function FirstMatch<V>(entries: seq<(seq<PatternChar>, V)>, key: string): Option<V> {
    if entries == [] then None
    else if Match(entries[0].0, key) then Some(entries[0].1)
    else FirstMatch(entries[1..], key)
  }

  lemma {:induction false} EntriesSnoc<V>(history: seq<Insertion<V>>, h: Insertion<V>)
    ensures Entries(history + [h])
         == Entries(history) + if IsGlob(h.pattern) then [(Compiled(NoFold(), h.pattern), h.value)] else []
    decreases |history|
  {
    hide IsGlob, Compiled;
    var more := if IsGlob(h.pattern) then [(Compiled(NoFold(), h.pattern), h.value)] else [];
    if history == [] {
      assert [h][1..] == [];
      AppendEmpty(more);
    } else {
      assert (history + [h])[1..] == history[1..] + [h];
      EntriesSnoc(history[1..], h);
      var x := history[0];
      AppendAssoc(if IsGlob(x.pattern) then [(Compiled(NoFold(), x.pattern), x.value)] else [], Entries(history[1..]), more);
    }
  }

  lemma {:induction false} FirstMatchIsEarliest<V>(history: seq<Insertion<V>>, key: string)
    ensures FirstMatch(Entries(history), key) == EarliestGlob(history, key)
    decreases |history|
  {
    hide IsGlob, Compiled, Match;
    if history != [] {
      FirstMatchIsEarliest(history[1..], key);
      var h := history[0];
      if IsGlob(h.pattern) {
        var all := Entries(history);
        assert all[0] == (Compiled(NoFold(), h.pattern), h.value) && all[1..] == Entries(history[1..]);
      } else {
        AppendEmpty(Entries(history[1..]));
      }
    }
  }

  class GlobMap<V> {
    var entries: map<string, V>
    var patterns: seq<(seq<PatternChar>, V)>
    ghost var history: seq<Insertion<V>>

    ghost predicate Valid()
      reads this
    {
      && patterns == Entries(history)
      && forall key :: (if key in entries then Some(entries[key]) else None) == LatestLiteral(history, key)
    }

    constructor ()
      ensures Valid() && history == []
    {
      entries, patterns, history := map[], [], [];
    }

    method Insert(pattern: string, value: V)
      requires Valid()
      modifies this
      ensures Valid() && history == old(history) + [Insertion(pattern, value)]
    {
      var r := TryCompile(pattern);
      match r {
        case Pattern(chars) => patterns := patterns + [(chars, value)];
        case Literal(text) => entries := entries[text := value];
      }
      ghost var before := history;
      history := history + [Insertion(pattern, value)];
      assert history[..|history| - 1] == before;
      EntriesSnoc(before, Insertion(pattern, value));
    }

    /** The latest literal entry for the key, or else the value of the earliest matching pattern. */
    method Get(key: string) returns (r: Option<V>)
      requires Valid()
      ensures r == Lookup(history, key)
    {
      if key in entries {
        assert LatestLiteral(history, key) == Some(entries[key]);
        return Some(entries[key]);
      }
      assert LatestLiteral(history, key) == None;
      FirstMatchIsEarliest(history, key);
      var k := 0;
      while k < |patterns|
        invariant 0 <= k <= |patterns|
        invariant FirstMatch(patterns, key) == FirstMatch(patterns[k..], key)
      {
        assert patterns[k..][1..] == patterns[k + 1..];
        var b := Matches(patterns[k].0, key);
        if b {
          return Some(patterns[k].1);
        }
        k := k + 1;
      }
      r := None;
    }
  }

  /** For faithful texts the rule reads: some value is found exactly when some text means the key. */
  lemma {:induction false} LookupFindsMeaning<V>(history: seq<Insertion<V>>, key: string)
    requires forall i :: 0 <= i < |history| ==> Faithful(history[i].pattern)
    ensures Lookup(history, key).Some? <==> exists i :: 0 <= i < |history| && Means(NoFold(), history[i].pattern, key)
  {
    LiteralFound(history, key);
    GlobFound(history, key);
    forall i | 0 <= i < |history|
      ensures Indexed(history[i].pattern, key) <==> Means(NoFold(), history[i].pattern, key)
    {
      FaithfulIsIndexed(history[i].pattern, key);
    }
  }

  /** The insertion is a literal for the key. */
  predicate IsLiteralFor<V>(h: Insertion<V>, key: string) {
    !IsGlob(h.pattern) && Strip(h.pattern) == key
  }

  /** The insertion is a pattern that means the key. */
  ghost predicate IsPatternFor<V>(h: Insertion<V>, key: string) {
    IsGlob(h.pattern) && Means(NoFold(), h.pattern, key)
  }

  /** Of the literals for a key the last one inserted gives the value, whatever patterns there are. */
  lemma {:induction false} LatestLiteralWins<V>(history: seq<Insertion<V>>, key: string, i: nat)
    requires i < |history| && IsLiteralFor(history[i], key)
    requires forall j :: i < j < |history| ==> !IsLiteralFor(history[j], key)
    ensures LatestLiteral(history, key) == Some(history[i].value)
    ensures Lookup(history, key) == Some(history[i].value)
    decreases |history|
  {
    hide IsGlob, Strip;
    if i < |history| - 1 {
      LatestLiteralWins(history[..|history| - 1], key, i);
    }
  }

  /** Of the patterns that mean a key without a literal, the first one inserted gives the value. */
  lemma {:induction false} EarliestPatternWins<V>(history: seq<Insertion<V>>, key: string, i: nat)
    requires i < |history| && IsPatternFor(history[i], key)
    requires forall j :: 0 <= j < i ==> !IsPatternFor(history[j], key)
    requires forall j :: 0 <= j < |history| ==> !IsLiteralFor(history[j], key)
    ensures Lookup(history, key) == Some(history[i].value)
    decreases |history|
  {
    hide IsGlob, Strip, Means, Match, Compiled;
    LiteralFound(history, key);
    CompiledMeans(NoFold(), history[0].pattern, key);
    if i > 0 {
      LiteralFound(history[1..], key);
      EarliestPatternWins(history[1..], key, i - 1);
    }
  }

  lemma {:induction false} LiteralFound<V>(history: seq<Insertion<V>>, key: string)
    ensures LatestLiteral(history, key).Some?
            <==> exists i :: 0 <= i < |history| && !IsGlob(history[i].pattern) && Strip(history[i].pattern) == key
    decreases |history|
  {
    hide IsGlob, Strip;
    if history != [] {
      var front := history[..|history| - 1];
      LiteralFound(front, key);
      assert forall i :: 0 <= i < |front| ==> front[i] == history[i];
    }
  }

  lemma {:induction false} GlobFound<V>(history: seq<Insertion<V>>, key: string)
    ensures EarliestGlob(history, key).Some?
            <==> exists i :: 0 <= i < |history| && IsGlob(history[i].pattern)
                             && Match(Compiled(NoFold(), history[i].pattern), key)
    decreases |history|
  {
    hide IsGlob, Match, Compiled;
    if history != [] {
      var tail := history[1..];
      GlobFound(tail, key);
      assert forall i :: 0 <= i < |tail| ==> tail[i] == history[i + 1];
      assert forall i :: 1 <= i < |history| ==> tail[i - 1] == history[i];
    }
  }
}
