/**
 Templates: the text, its tokens, the nested tree they denote, and the flat code the compiler
 emits for it.
 */
module TemplateModel {
  import opened Basics

  datatype Item<+T> =
    | Static(text: string)
    | Variable(name: T, escape: bool)
    | If(variable: T, ifEnd: nat)
    | ForEach(variable: T, eachEnd: nat)

  datatype Value<+T> = Single(value: string) | Block(entries: seq<map<T, string>>)

  datatype ParseError =
    | UnmatchedOpen | InvalidBlockStart | InvalidBlockEnd | InvalidVariable
    | EndNameMismatch | EndKindMismatch | UnclosedBlock

  datatype Result<+R> = Ok(value: R) | Err(error: ParseError)

  // ---- Text to tokens ------------------------------------------------------------------------

  datatype Token =
    | Text(text: string)
    | Var(name: string, escape: bool)
    | Open(isEach: bool, name: string)
    | Close(isEach: bool, name: string)
    | Bad(error: ParseError)

  /** Unicode `White_Space`. */
  predicate IsSpace(c: char) {
    var u := c as int;
    0x09 <= u <= 0x0d || u == 0x20 || u == 0x85 || u == 0xa0 || u == 0x1680 || 0x2000 <= u <= 0x200a ||
    u == 0x2028 || u == 0x2029 || u == 0x202f || u == 0x205f || u == 0x3000
  }

  function TrimStart(s: string): string {
    if s != "" && IsSpace(s[0]) then TrimStart(s[1..]) else s
  }

  function TrimEnd(s: string): string {
    if s != "" && IsSpace(s[|s| - 1]) then TrimEnd(s[..|s| - 1]) else s
  }

  function Trim(s: string): string {
    TrimEnd(TrimStart(s))
  }

  function StripPrefix(s: string, prefix: string): Option<string> {
    if prefix <= s then Some(s[|prefix|..]) else None
  }

  predicate PairAt(s: string, c: char, i: int) {
    0 <= i < |s| - 1 && s[i] == c && s[i + 1] == c
  }

  /** The position of the first doubled `c`. */
  function FindPair(s: string, c: char): (r: Option<nat>)
    ensures r.Some? ==> PairAt(s, c, r.value) && forall i :: 0 <= i < r.value ==> !PairAt(s, c, i)
    ensures r.None? ==> forall i :: !PairAt(s, c, i)
  {
    assert s != "" ==> forall i :: PairAt(s, c, i) && i > 0 ==> PairAt(s[1..], c, i - 1);
    if |s| < 2 then None
    else if s[0] == c && s[1] == c then Some(0)
    else match FindPair(s[1..], c)
      case None => None
      case Some(i) => Some(i + 1)
  }

  /** `each name` or `if name` after a block marker. */
  function LexBlock(s: string, ok: (bool, string) -> Token, error: ParseError): Token {
    match StripPrefix(s, "each ")
    case Some(name) => ok(true, name)
    case None =>
      match StripPrefix(s, "if ")
      case Some(name) => ok(false, name)
      case None => Bad(error)
  }

  /** What stands between the braces. */
  function LexTag(tag: string): Token {
    match StripPrefix(tag, "#")
    case Some(s) => LexBlock(Trim(s), (e, n) => Open(e, n), InvalidBlockStart)
    case None =>
      match StripPrefix(tag, "/")
      case Some(s) => LexBlock(Trim(s), (e, n) => Close(e, n), InvalidBlockEnd)
      case None =>
        match StripPrefix(tag, "!")
        case Some(name) => Var(name, false)
        case None => Var(tag, true)
  }

  function LexText(s: string): seq<Token> {
    if s == "" then [] else [Text(s)]
  }

  function Lex(text: string): seq<Token>
    decreases |text|
  {
    match FindPair(text, '{')
    case None => LexText(text)
    case Some(i) =>
      var inner := text[i + 2..];
      LexText(text[..i]) +
      (match FindPair(inner, '}')
       case None => [Bad(UnmatchedOpen)]
       case Some(j) => [LexTag(Trim(inner[..j]))] + Lex(inner[j + 2..]))
  }

  // ---- Tokens to code, one token at a time ---------------------------------------------------

  datatype Frame = Frame(name: string, pos: nat)

  datatype Parser<+T> = Parser(items: seq<Item<T>>, stack: seq<Frame>)

  function Emit<T>(p: Parser<T>, item: Item<T>): Parser<T> {
    p.(items := p.items + [item])
  }

  /** A block opener: remember where it is, its end is patched in later. */
  function Begin<T>(p: Parser<T>, isEach: bool, name: string, v: T): Parser<T> {
    Emit(p, if isEach then ForEach(v, 0) else If(v, 0)).(stack := p.stack + [Frame(name, |p.items|)])
  }

  /** A block closer: patch the opener, unless there is none to close. */
  function End<T>(p: Parser<T>, isEach: bool, name: string): Result<Parser<T>> {
    if p.stack == [] then Ok(p)
    else
      var top := p.stack[|p.stack| - 1];
      if top.name != name then Err(EndNameMismatch)
      else if top.pos >= |p.items| then Err(EndKindMismatch)
      else
        var popped := p.stack[..|p.stack| - 1];
        match p.items[top.pos]
        case If(v, _) =>
          if isEach then Err(EndKindMismatch)
          else Ok(Parser(p.items[top.pos := If(v, |p.items|)], popped))
        case ForEach(v, _) =>
          if !isEach then Err(EndKindMismatch)
          else Ok(Parser(p.items[top.pos := ForEach(v, |p.items|)], popped))
        case _ => Err(EndKindMismatch)
  }

  function StepToken<T>(fromStr: string -> Option<T>, p: Parser<T>, t: Token): Result<Parser<T>> {
    match t
    case Text(s) => Ok(Emit(p, Static(s)))
    case Var(name, escape) =>
      (match fromStr(name)
       case None => Err(InvalidVariable)
       case Some(v) => Ok(Emit(p, Variable(v, escape))))
    case Open(isEach, name) =>
      (match fromStr(name)
       case None => Err(InvalidVariable)
       case Some(v) => Ok(Begin(p, isEach, name, v)))
    case Close(isEach, name) => End(p, isEach, name)
    case Bad(error) => Err(error)
  }

  function ParseTokens<T>(fromStr: string -> Option<T>, p: Parser<T>, ts: seq<Token>): Result<seq<Item<T>>>
    decreases |ts|
  {
    if ts == [] then
      if p.stack == [] then Ok(p.items) else Err(UnclosedBlock)
    else match StepToken(fromStr, p, ts[0])
      case Err(e) => Err(e)
      case Ok(p') => ParseTokens(fromStr, p', ts[1..])
  }

  /** The compiler as a function of the text. */
  function Compile<T>(fromStr: string -> Option<T>, text: string): Result<seq<Item<T>>> {
    ParseTokens(fromStr, Parser([], []), Lex(text))
  }

  // ---- The nested tree -----------------------------------------------------------------------

  /**
   A list of template pieces. `Stray` is a block closer with nothing to close, which the compiler
   ignores; it can only stand at the top level.
   */
  datatype Forest<+T> =
    | Nil
    | TextNode(text: string, next: Forest<T>)
    | VarNode(name: string, v: T, escape: bool, next: Forest<T>)
    | BlockNode(isEach: bool, name: string, v: T, body: Forest<T>, next: Forest<T>)
    | Stray(isEach: bool, name: string, next: Forest<T>)

  predicate Proper<T>(f: Forest<T>, top: bool) {
    match f
    case Nil => true
    case TextNode(_, next) => Proper(next, top)
    case VarNode(_, _, _, next) => Proper(next, top)
    case BlockNode(_, _, _, body, next) => Proper(body, false) && Proper(next, top)
    case Stray(_, _, next) => top && Proper(next, top)
  }

  /** Every variable name in the tree denotes the variable it is labelled with. */
  ghost predicate Resolved<T>(fromStr: string -> Option<T>, f: Forest<T>) {
    match f
    case Nil => true
    case TextNode(_, next) => Resolved(fromStr, next)
    case VarNode(name, v, _, next) => fromStr(name) == Some(v) && Resolved(fromStr, next)
    case BlockNode(_, name, v, body, next) =>
      fromStr(name) == Some(v) && Resolved(fromStr, body) && Resolved(fromStr, next)
    case Stray(_, _, next) => Resolved(fromStr, next)
  }

  /** The tokens a tree is written with. */
  function Tokens<T>(f: Forest<T>): seq<Token> {
    match f
    case Nil => []
    case TextNode(s, next) => [Text(s)] + Tokens(next)
    case VarNode(name, _, escape, next) => [Var(name, escape)] + Tokens(next)
    case BlockNode(isEach, name, _, body, next) =>
      [Open(isEach, name)] + (Tokens(body) + ([Close(isEach, name)] + Tokens(next)))
    case Stray(isEach, name, next) => [Close(isEach, name)] + Tokens(next)
  }

  /** The flat code of a tree that starts at index `base`: blocks jump to their absolute end. */
  function Code<T>(f: Forest<T>, base: nat): seq<Item<T>> {
    match f
    case Nil => []
    case TextNode(s, next) => [Static(s)] + Code(next, base + 1)
    case VarNode(_, v, escape, next) => [Variable(v, escape)] + Code(next, base + 1)
    case BlockNode(isEach, _, v, body, next) =>
      var inner := Code(body, base + 1);
      var end := base + 1 + |inner|;
      [if isEach then ForEach(v, end) else If(v, end)] + (inner + Code(next, end))
    case Stray(_, _, next) => Code(next, base)
  }
}
