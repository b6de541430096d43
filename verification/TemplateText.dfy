/** Writing a tree as template text and reading it back; and what escaping keeps. */
module TemplateText {
  import opened Basics
  import opened TemplateModel
  import opened TemplateCompiler
  import opened TemplateEval

  // ---- The text of a tree -----------------------------------------------------------------------

  /** The characters with the Unicode property `White_Space`. */
  predicate WhiteSpace(c: char) {
    c as int in {
      9, 10, 11, 12, 13, 32, 133, 160, 5760, 8192, 8193, 8194, 8195, 8196, 8197, 8198, 8199, 8200, 8201, 8202,
      8232, 8233, 8239, 8287, 12288}
  }

  predicate AllWhite(s: string) {
    forall i :: 0 <= i < |s| ==> WhiteSpace(s[i])
  }

  predicate NoPair(s: string, c: char) {
    forall i :: 0 <= i < |s| - 1 ==> !(s[i] == c && s[i + 1] == c)
  }

  function Keyword(isEach: bool): string {
    if isEach then "each " else "if "
  }

  function OpenTag(pad: string, isEach: bool, name: string): string {
    "#" + (pad + (Keyword(isEach) + name))
  }

  function CloseTag(pad: string, isEach: bool, name: string): string {
    "/" + (pad + (Keyword(isEach) + name))
  }

  function VarTag(name: string, escape: bool): string {
    if escape then name else "!" + name
  }

  function Braces(pad: string, tag: string, rest: string): string {
    "{{" + ((pad + (tag + pad)) + ("}}" + rest))
  }

  /** The text of a tree, followed by `rest`; `pad` stands around each tag and before each keyword. */
  function Print<T>(pad: string, f: Forest<T>, rest: string): string
    decreases f
  {
    match f
    case Nil => rest
    case TextNode(s, next) => s + Print(pad, next, rest)
    case VarNode(name, _, escape, next) => Braces(pad, VarTag(name, escape), Print(pad, next, rest))
    case BlockNode(isEach, name, _, body, next) =>
      var after := Braces(pad, CloseTag(pad, isEach, name), Print(pad, next, rest));
      Braces(pad, OpenTag(pad, isEach, name), Print(pad, body, after))
    case Stray(isEach, name, next) => Braces(pad, CloseTag(pad, isEach, name), Print(pad, next, rest))
  }

  /** The text can be followed by a tag without changing where the tag starts. */
  predicate PlainText(s: string) {
    s != "" && NoPair(s, '{') && s[|s| - 1] != '{'
  }

  /** The tag is found again between its braces, and has no blanks to trim. */
  predicate PlainTag(tag: string) {
    NoPair(tag, '}') && (tag != "" ==> tag[|tag| - 1] != '}' && !WhiteSpace(tag[|tag| - 1]) && !WhiteSpace(tag[0]))
  }

  predicate PlainVar(name: string, escape: bool) {
    PlainTag(VarTag(name, escape)) && (escape && name != "" ==> name[0] != '#' && name[0] != '/' && name[0] != '!')
  }

  predicate PlainBlock(name: string) {
    name != "" && NoPair(name, '}') && name[|name| - 1] != '}' && !WhiteSpace(name[|name| - 1])
  }

  /** Trees whose text reads back: no two texts in a row, and names the syntax can carry. */
  predicate Printable<T>(f: Forest<T>) {
    match f
    case Nil => true
    case TextNode(s, next) => PlainText(s) && !next.TextNode? && Printable(next)
    case VarNode(name, _, escape, next) => PlainVar(name, escape) && Printable(next)
    case BlockNode(_, name, _, body, next) => PlainBlock(name) && Printable(body) && Printable(next)
    case Stray(_, name, next) => PlainBlock(name) && Printable(next)
  }

  // ---- Finding tags again -----------------------------------------------------------------------

  /** Empty, or the start of a tag. */
  predicate AtBoundary(s: string) {
    s == "" || (|s| >= 2 && s[0] == '{' && s[1] == '{')
  }

  lemma {:induction false} FindPairAfter(a: string, c: char, b: string)
    requires FindPair(a, c).None? && (a != "" ==> a[|a| - 1] != c)
    ensures FindPair(a + ([c, c] + b), c) == Some(|a|)
    decreases |a|
  {
    var s := a + ([c, c] + b);
    if a == "" {
      assert s[0] == c && s[1] == c;
    } else {
      assert s[1..] == a[1..] + ([c, c] + b);
      assert FindPair(a[1..], c).None?;
      FindPairAfter(a[1..], c, b);
    }
  }

  lemma {:induction false} FindPairAppend(a: string, b: string, c: char)
    requires FindPair(a, c).None? && FindPair(b, c).None?
    requires a != "" && b != "" ==> a[|a| - 1] != c || b[0] != c
    ensures FindPair(a + b, c).None?
    decreases |a|
  {
    if a == "" {
      assert a + b == b;
    } else {
      assert (a + b)[1..] == a[1..] + b;
      assert |a| >= 2 ==> FindPair(a[1..], c).None?;
      FindPairAppend(a[1..], b, c);
    }
  }

  lemma SpacesAgree(c: char)
    ensures IsSpace(c) == WhiteSpace(c)
  {
  }

  lemma NoPairIsFound(s: string, c: char)
    requires NoPair(s, c)
    ensures FindPair(s, c).None?
  {
  }

  lemma {:induction false} TrimStartSkips(pad: string, s: string)
    requires AllWhite(pad) && (s == "" || !WhiteSpace(s[0]))
    ensures TrimStart(pad + s) == s
    decreases |pad|
  {
    if pad == "" {
      AppendEmpty(s);
      if s != "" {
        SpacesAgree(s[0]);
      }
    } else {
      SpacesAgree(pad[0]);
      assert (pad + s)[0] == pad[0] && (pad + s)[1..] == pad[1..] + s;
      TrimStartSkips(pad[1..], s);
    }
  }

  lemma {:induction false} TrimEndSkips(s: string, pad: string)
    requires AllWhite(pad) && (s == "" || !WhiteSpace(s[|s| - 1]))
    ensures TrimEnd(s + pad) == s
    decreases |pad|
  {
    if pad == "" {
      AppendEmpty(s);
      if s != "" {
        SpacesAgree(s[|s| - 1]);
      }
    } else {
      var t, n := s + pad, |pad| - 1;
      SpacesAgree(pad[n]);
      assert t[|t| - 1] == pad[n] && t[..|t| - 1] == s + pad[..n];
      TrimEndSkips(s, pad[..n]);
    }
  }

  /** Blanks around a tag do not count. */
  lemma TrimsPad(pad: string, tag: string)
    requires AllWhite(pad) && (tag != "" ==> !WhiteSpace(tag[0]) && !WhiteSpace(tag[|tag| - 1]))
    ensures Trim(pad + (tag + pad)) == tag && Trim(pad + tag) == tag
  {
    hide TrimStart, TrimEnd, WhiteSpace;
    AppendEmpty(tag);
    TrimEndSkips(tag, "");
    if tag == "" {
      AppendEmpty(pad);
      TrimStartSkips(pad + pad, "");
      AppendEmpty(pad + pad);
      TrimStartSkips(pad, "");
    } else {
      assert (tag + pad)[0] == tag[0];
      TrimStartSkips(pad, tag + pad);
      TrimEndSkips(tag, pad);
      TrimStartSkips(pad, tag);
    }
  }

  lemma WhiteHasNoBrace(pad: string)
    requires AllWhite(pad)
    ensures '}' !in pad
  {
    assert !WhiteSpace('}');
  }

  lemma PaddedHasNoPair(pad: string, tag: string)
    requires AllWhite(pad) && PlainTag(tag)
    ensures var s := pad + (tag + pad);
            FindPair(s, '}').None? && (s != "" ==> s[|s| - 1] != '}')
  {
    hide WhiteSpace, FindPair;
    WhiteHasNoBrace(pad);
    var s := pad + (tag + pad);
    assert forall i :: 0 <= i < |s| - 1 && s[i] == '}' ==> |pad| <= i < |pad| + |tag|;
    assert forall i :: |pad| <= i < |pad| + |tag| ==> s[i] == tag[i - |pad|];
    NoPairIsFound(s, '}');
  }

  /** The first tag of a text, and the rest. */
  lemma LexFirstTag(padded: string, rest: string)
    requires FindPair("{{" + (padded + ("}}" + rest)), '{') == Some(0) && FindPair(padded + ("}}" + rest), '}') == Some(|padded|)
    ensures Lex("{{" + (padded + ("}}" + rest))) == [LexTag(Trim(padded))] + Lex(rest)
  {
    hide FindPair, Trim, LexTag;
    var inner := padded + ("}}" + rest);
    var text := "{{" + inner;
    assert text[..0] == "" && text[2..] == inner;
    assert inner[..|padded|] == padded && inner[|padded| + 2..] == rest;
    AppendEmpty([LexTag(Trim(padded))] + Lex(rest));
  }

  lemma LexTagged(pad: string, tag: string, rest: string)
    requires AllWhite(pad) && PlainTag(tag)
    ensures Lex(Braces(pad, tag, rest)) == [LexTag(tag)] + Lex(rest)
  {
    hide FindPair, Trim, LexTag, PlainTag, AllWhite, Lex;
    var padded := pad + (tag + pad);
    OpensAtOnce(padded + ("}}" + rest));
    PaddedHasNoPair(pad, tag);
    assert "}}" == ['}', '}'];
    FindPairAfter(padded, '}', rest);
    PlainTagTrims(pad, tag);
    LexFirstTag(padded, rest);
  }

  lemma PlainTagTrims(pad: string, tag: string)
    requires AllWhite(pad) && PlainTag(tag)
    ensures Trim(pad + (tag + pad)) == tag
  {
    hide Trim, WhiteSpace;
    TrimsPad(pad, tag);
  }

  lemma OpensAtOnce(s: string)
    ensures FindPair("{{" + s, '{') == Some(0)
  {
  }

  /** The tag after a plain text starts where the text ends. */
  lemma TagAfterPlain(s: string, rest: string)
    requires PlainText(s) && AtBoundary(rest) && rest != ""
    ensures FindPair(s + rest, '{') == Some(|s|) && FindPair(rest, '{') == Some(0)
    ensures (s + rest)[..|s|] == s && LexAfter(s + rest) == LexAfter(rest)
  {
    hide FindPair, LexAfter;
    BoundaryIsTag(rest);
    NoPairIsFound(s, '{');
    assert rest == ['{', '{'] + rest[2..];
    FindPairAfter(s, '{', rest[2..]);
    assert (s + rest)[|s| + 2..] == rest[2..];
    LexAfterSame(s + rest, rest);
  }

  lemma BoundaryIsTag(rest: string)
    requires AtBoundary(rest) && rest != ""
    ensures FindPair(rest, '{') == Some(0)
  {
  }

  /** What is lexed after the first tag depends only on the text from there on. */
  lemma LexAfterSame(a: string, b: string)
    requires FindPair(a, '{').Some? && FindPair(b, '{').Some?
    requires a[FindPair(a, '{').value + 2..] == b[FindPair(b, '{').value + 2..]
    ensures LexAfter(a) == LexAfter(b)
  {
    hide Lex, Trim, LexTag, FindPair;
    var inner := a[FindPair(a, '{').value + 2..];
    assert inner == b[FindPair(b, '{').value + 2..];
  }

  lemma LexPlain(s: string, rest: string)
    requires PlainText(s) && AtBoundary(rest)
    ensures Lex(s + rest) == [Text(s)] + Lex(rest)
  {
    hide Lex, FindPair, LexAfter;
    if rest == "" {
      LexPlainEnd(s);
      AppendEmpty(s);
    } else {
      TagAfterPlain(s, rest);
      LexSplits(s + rest);
      LexSplits(rest);
      AppendEmpty(LexAfter(rest));
    }
  }

  lemma LexPlainEnd(s: string)
    requires PlainText(s)
    ensures Lex(s) == [Text(s)] + Lex("")
  {
    NoPairIsFound(s, '{');
    AppendEmpty([Text(s)]);
  }

  lemma BlockTagIsPlain(marker: string, pad: string, isEach: bool, name: string)
    requires AllWhite(pad) && PlainBlock(name) && (marker == "#" || marker == "/")
    ensures PlainTag(marker + (pad + (Keyword(isEach) + name)))
    ensures Trim(pad + (Keyword(isEach) + name)) == Keyword(isEach) + name
  {
    hide Trim, WhiteSpace;
    var s := Keyword(isEach) + name;
    var tag := marker + (pad + s);
    var n := |marker| + |pad| + |Keyword(isEach)|;
    MarkersAreBlack(marker, isEach);
    WhiteHasNoBrace(pad);
    assert s[0] == Keyword(isEach)[0] && tag[0] == marker[0];
    assert s[|s| - 1] == name[|name| - 1] == tag[|tag| - 1];
    TrimsPad(pad, s);
    assert forall i :: 0 <= i < n ==> tag[i] != '}';
    assert forall i :: n <= i < |tag| ==> tag[i] == name[i - n];
  }

  lemma MarkersAreBlack(marker: string, isEach: bool)
    requires marker == "#" || marker == "/"
    ensures !WhiteSpace(marker[0]) && !WhiteSpace(Keyword(isEach)[0]) && '}' !in marker && '}' !in Keyword(isEach)
  {
  }

  lemma KeywordLexes(isEach: bool, name: string, ok: (bool, string) -> Token, error: ParseError)
    ensures LexBlock(Keyword(isEach) + name, ok, error) == ok(isEach, name)
  {
    var s := Keyword(isEach) + name;
    assert s[|Keyword(isEach)|..] == name;
    if !isEach {
      assert s[0] == 'i' && !("each " <= s);
    }
  }

  lemma MarkerStrips(s: string)
    ensures StripPrefix("#" + s, "#") == Some(s)
    ensures StripPrefix("/" + s, "#") == None && StripPrefix("/" + s, "/") == Some(s)
  {
    assert ("#" + s)[1..] == s && ("/" + s)[1..] == s;
    assert ("/" + s)[0] == '/';
  }

  lemma BlockTagLexes(pad: string, isEach: bool, name: string)
    requires AllWhite(pad) && PlainBlock(name)
    ensures PlainTag(OpenTag(pad, isEach, name)) && LexTag(OpenTag(pad, isEach, name)) == Open(isEach, name)
    ensures PlainTag(CloseTag(pad, isEach, name)) && LexTag(CloseTag(pad, isEach, name)) == Close(isEach, name)
  {
    hide PlainTag, PlainBlock, Trim, StripPrefix, LexBlock, Keyword, AllWhite;
    BlockTagIsPlain("#", pad, isEach, name);
    BlockTagIsPlain("/", pad, isEach, name);
    MarkerStrips(pad + (Keyword(isEach) + name));
    KeywordLexes(isEach, name, (e, n) => Open(e, n), InvalidBlockStart);
    KeywordLexes(isEach, name, (e, n) => Close(e, n), InvalidBlockEnd);
  }

  lemma VarTagLexes(name: string, escape: bool)
    requires PlainVar(name, escape)
    ensures LexTag(VarTag(name, escape)) == Var(name, escape)
  {
    if !escape {
      var tag := "!" + name;
      assert tag[0] == '!' && tag[1..] == name;
    }
  }

  lemma PrintedAtBoundary<T>(pad: string, f: Forest<T>, rest: string)
    requires !f.TextNode? && AtBoundary(rest)
    ensures AtBoundary(Print(pad, f, rest))
    decreases f
  {
    if f.Nil? {
    } else {
      var tag, after :| Print(pad, f, rest) == Braces(pad, tag, after);
    }
  }

  /** The text of a tree, with any blanks around its tags, lexes to the tokens of the tree. */
  lemma {:induction false} PrintedLexes<T>(pad: string, f: Forest<T>, rest: string)
    requires AllWhite(pad) && Printable(f) && AtBoundary(rest)
    ensures Lex(Print(pad, f, rest)) == Tokens(f) + Lex(rest)
    decreases f
  {
    hide Lex, LexTag, PlainTag, PlainText, AllWhite, Braces;
    match f
    case Nil => AppendEmpty(Lex(rest));
    case TextNode(s, next) =>
      PrintedAtBoundary(pad, next, rest);
      LexPlain(s, Print(pad, next, rest));
      PrintedLexes(pad, next, rest);
      AppendAssoc([Text(s)], Tokens(next), Lex(rest));
    case VarNode(name, _, escape, next) =>
      VarTagLexes(name, escape);
      LexTagged(pad, VarTag(name, escape), Print(pad, next, rest));
      PrintedLexes(pad, next, rest);
      AppendAssoc([Var(name, escape)], Tokens(next), Lex(rest));
    case BlockNode(isEach, name, _, body, next) =>
      BlockTagLexes(pad, isEach, name);
      var after := Braces(pad, CloseTag(pad, isEach, name), Print(pad, next, rest));
      BracesAtBoundary(pad, CloseTag(pad, isEach, name), Print(pad, next, rest));
      LexTagged(pad, OpenTag(pad, isEach, name), Print(pad, body, after));
      LexTagged(pad, CloseTag(pad, isEach, name), Print(pad, next, rest));
      PrintedLexes(pad, body, after);
      PrintedLexes(pad, next, rest);
      AppendNested([Open(isEach, name)], Tokens(body), [Close(isEach, name)], Tokens(next), Lex(rest));
    case Stray(isEach, name, next) =>
      BlockTagLexes(pad, isEach, name);
      LexTagged(pad, CloseTag(pad, isEach, name), Print(pad, next, rest));
      PrintedLexes(pad, next, rest);
      AppendAssoc([Close(isEach, name)], Tokens(next), Lex(rest));
  }

  lemma BracesAtBoundary(pad: string, tag: string, rest: string)
    ensures AtBoundary(Braces(pad, tag, rest))
  {
  }

  /** Writing a tree as text and compiling it gives the code of the tree. */
  lemma PrintedTreeCompiles<T>(fromStr: string -> Option<T>, pad: string, f: Forest<T>)
    requires AllWhite(pad) && Printable(f) && Proper(f, true) && Resolved(fromStr, f)
    ensures Compile(fromStr, Print(pad, f, "")) == Ok(Code(f, 0))
  {
    hide AllWhite, Print, Printable;
    PrintedLexes(pad, f, "");
    assert Lex("") == [];
    AppendEmpty(Tokens(f));
    TreeIsCompiled(fromStr, Print(pad, f, ""), f);
  }

  // ---- Texts that are not templates -------------------------------------------------------------

  /** A tag that is never closed. */
  lemma UnclosedTagFails(s: string, rest: string)
    requires (s == "" || PlainText(s)) && NoPair(rest, '}')
    ensures Lex(s + ("{{" + rest)) == LexText(s) + [Bad(UnmatchedOpen)]
  {
    hide FindPair, PlainText;
    var text := s + ("{{" + rest);
    assert "{{" == ['{', '{'];
    PlainHasNoPair(s);
    FindPairAfter(s, '{', rest);
    assert text[..|s|] == s && text[|s| + 2..] == rest;
    NoPairIsFound(rest, '}');
  }

  lemma PlainHasNoPair(s: string)
    requires s == "" || PlainText(s)
    ensures FindPair(s, '{').None? && (s != "" ==> s[|s| - 1] != '{')
  {
    NoPairIsFound(s, '{');
  }

  /** A block marker without `each` or `if` after it. */
  lemma UnknownBlockFails(pad: string, s: string)
    requires AllWhite(pad) && !("each " <= s) && !("if " <= s)
    requires s != "" ==> !WhiteSpace(s[0]) && !WhiteSpace(s[|s| - 1])
    ensures LexTag("#" + (pad + s)) == Bad(InvalidBlockStart) && LexTag("/" + (pad + s)) == Bad(InvalidBlockEnd)
  {
    hide Trim, AllWhite, WhiteSpace;
    MarkerStrips(pad + s);
    TrimsPad(pad, s);
  }

  // ---- Escaping -------------------------------------------------------------------------------

  predicate IsMarkup(c: char) {
    c == '<' || c == '>' || c == '"' || c == '\''
  }

  /** Escaped text contains no character that could end a text node or an attribute value. */
  lemma {:induction false} EscapedHasNoMarkup(s: string, i: nat)
    requires i < |HtmlEscape(s)|
    ensures !IsMarkup(HtmlEscape(s)[i])
    decreases |s|
  {
    hide EscapeChar, IsMarkup;
    if s != "" {
      if i < |EscapeChar(s[0])| {
        EscapeCharHasNoMarkup(s[0], i);
      } else {
        EscapedHasNoMarkup(s[1..], i - |EscapeChar(s[0])|);
      }
    }
  }

  lemma EscapeCharHasNoMarkup(c: char, i: nat)
    requires i < |EscapeChar(c)|
    ensures !IsMarkup(EscapeChar(c)[i])
  {
  }

  /** No character's escape is the start of another's. */
  lemma EscapeCharIsPrefixCode(c: char, x: string, d: char, y: string)
    requires EscapeChar(c) + x == EscapeChar(d) + y
    ensures c == d && x == y
  {
    EscapeCharStarts(c, d);
    hide EscapeChar;
    var a, b := EscapeChar(c), EscapeChar(d);
    assert (a + x)[0] == a[0] && (b + y)[0] == b[0];
    if |a| >= 2 && |b| >= 2 {
      assert (a + x)[1] == a[1] && (b + y)[1] == b[1];
    }
    assert (a + x)[|a|..] == x && (b + y)[|b|..] == y;
  }

  /** The first two characters of an escape tell which character it stands for. */
  lemma EscapeCharStarts(c: char, d: char)
    ensures EscapeChar(c) != "" && EscapeChar(d) != ""
    ensures var a, b := EscapeChar(c), EscapeChar(d);
            a[0] == b[0] && (|a| >= 2 && |b| >= 2 ==> a[1] == b[1]) ==> c == d
  {
  }

  /** Escaping loses nothing: different texts stay different. */
  lemma {:induction false} EscapeIsInjective(s: string, t: string)
    requires HtmlEscape(s) == HtmlEscape(t)
    ensures s == t
    decreases |s|
  {
    if s != "" && t != "" {
      EscapeCharIsPrefixCode(s[0], HtmlEscape(s[1..]), t[0], HtmlEscape(t[1..]));
      EscapeIsInjective(s[1..], t[1..]);
      HeadTail(s);
      HeadTail(t);
    }
  }

  /** The character references of HTML that stand for markup, read on their own. */
  function Reference(s: string): Option<(char, nat)> {
    if "&amp;" <= s then Some(('&', 5))
    else if "&lt;" <= s then Some(('<', 4))
    else if "&gt;" <= s then Some(('>', 4))
    else if "&quot;" <= s then Some(('"', 6))
    else if "&#39;" <= s then Some(('\'', 5))
    else None
  }

  /** Text as a browser shows it: references stand for their characters, everything else for itself. */
  function Unescape(s: string): string
    decreases |s|
  {
    if s == "" then ""
    else match Reference(s)
      case Some((c, n)) => [c] + Unescape(s[n..])
      case None => [s[0]] + Unescape(s[1..])
  }

  lemma EscapeIsReference(c: char, rest: string)
    ensures var s := EscapeChar(c) + rest;
            if c in {'&', '<', '>', '"', '\''} then Reference(s) == Some((c, |EscapeChar(c)|))
            else Reference(s) == None && EscapeChar(c) == [c]
    ensures EscapeChar(c) != ""
  {
    var s := EscapeChar(c) + rest;
    assert EscapeChar(c) <= s;
    assert s[0] == EscapeChar(c)[0] && (|EscapeChar(c)| > 1 ==> s[1] == EscapeChar(c)[1]);
  }

  lemma UnescapeFirst(c: char, rest: string)
    ensures Unescape(EscapeChar(c) + rest) == [c] + Unescape(rest)
  {
    var s := EscapeChar(c) + rest;
    EscapeIsReference(c, rest);
    hide EscapeChar, Reference;
    assert s != "" && s[|EscapeChar(c)|..] == rest && (EscapeChar(c) == [c] ==> s[0] == c);
  }

  /** Escaped text is shown as the text it was made from. */
  lemma {:induction false} UnescapeEscaped(s: string)
    ensures Unescape(HtmlEscape(s)) == s
    decreases |s|
  {
    hide Unescape, EscapeChar;
    if s == "" {
      UnescapeNothing();
    } else {
      UnescapeEscaped(s[1..]);
      UnescapeFirst(s[0], HtmlEscape(s[1..]));
      HeadTail(s);
    }
  }

  lemma UnescapeNothing()
    ensures Unescape("") == ""
  {
  }

  /**
   `{{name}}` prints a text without markup that is shown as the value, and `{{!name}}` prints the
   value itself, whatever blanks stand inside the braces.
   */
  lemma VariableTagPrints<T>(fromStr: string -> Option<T>, pad: string, name: string, v: T, escape: bool, vars: map<T, Value<T>>)
    requires AllWhite(pad) && PlainVar(name, escape) && fromStr(name) == Some(v) && v in vars && vars[v].Single?
    ensures var r := Compile(fromStr, Braces(pad, VarTag(name, escape), ""));
            && r.Ok? && Nested(r.value, 0, |r.value|)
            && var out, value := EvalFrom(r.value, 0, vars), vars[v].value;
               if escape then Unescape(out) == value && forall i :: 0 <= i < |out| ==> !IsMarkup(out[i])
               else out == value
  {
    hide Unescape, AllWhite, PlainVar, IsMarkup, HtmlEscape;
    var f := VarNode(name, v, escape, Nil);
    PrintedTreeCompiles(fromStr, pad, f);
    var items, value := Code(f, 0), vars[v].value;
    assert items == [Variable(v, escape)];
    assert EvalFrom(items, 0, vars) == Show(value, escape) + EvalFrom(items, 1, vars);
    AppendEmpty(Show(value, escape));
    if escape {
      UnescapeEscaped(value);
      forall i | 0 <= i < |HtmlEscape(value)|
        ensures !IsMarkup(HtmlEscape(value)[i])
      {
        EscapedHasNoMarkup(value, i);
      }
    }
  }
}
