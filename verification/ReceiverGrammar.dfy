/**
 The syntax of requests, read piece by piece from the whole text: longest runs of bytes of a kind,
 with numbers, names and limits as the protocol documents give them. The byte-at-a-time receiver
 reports, for every stream, what this reader does.
 */
module ReceiverGrammar {
  import opened Basics
  import opened ReceiverModel

  /** Kinds of bytes that stand together. */
  datatype Kind = Blanks | LineBlanks | Letters | Digits | Pluses | TagBytes | WordBytes(brackets: bool)

  predicate Is(k: Kind, ch: byte) {
    match k
    case Blanks => ch == 9 || ch == 10 || ch == 12 || ch == 13 || ch == 32
    case LineBlanks => ch == 9 || ch == 12 || ch == 13 || ch == 32
    case Letters => 48 <= ch <= 57 || 65 <= ch <= 90 || 97 <= ch <= 122
    case Digits => 48 <= ch <= 57
    case Pluses => ch == 43
    case TagBytes => ch != 10 && ch != 32
    case WordBytes(b) => ch != 9 && ch != 10 && ch != 12 && ch != 13 && ch != 32 && Mark(b, ch).None?
  }

  /** Punctuation: parentheses everywhere, the rest where the command has brackets. */
  function Mark(brackets: bool, ch: byte): Option<Token> {
    if ch == 40 then Some(ParenthesisOpen)
    else if ch == 41 then Some(ParenthesisClose)
    else if brackets && ch == 46 then Some(Dot)
    else if brackets && ch == 60 then Some(Lt)
    else if brackets && ch == 62 then Some(Gt)
    else if brackets && ch == 91 then Some(BracketOpen)
    else if brackets && ch == 93 then Some(BracketClose)
    else None
  }

  /** How many bytes of the kind the text starts with. */
  function Span(k: Kind, s: seq<byte>): (n: nat)
    ensures n <= |s| && (n < |s| ==> !Is(k, s[n])) && forall i :: 0 <= i < n ==> Is(k, s[i])
  {
    if s == [] || !Is(k, s[0]) then 0 else 1 + Span(k, s[1..])
  }

  /** A tag without tabs and carriage returns. */
  function Kept(s: seq<byte>): seq<byte> {
    if s == [] then []
    else if s[0] == 9 || s[0] == 13 then Kept(s[1..])
    else [s[0]] + Kept(s[1..])
  }

  /** Where the `n`-th byte that is kept ends. */
  function EndOfKept(s: seq<byte>, n: nat): nat {
    if n == 0 || s == [] then 0 else 1 + EndOfKept(s[1..], if s[0] == 9 || s[0] == 13 then n else n - 1)
  }

  lemma {:induction false} EndOfKeptFits(s: seq<byte>, n: nat)
    ensures EndOfKept(s, n) <= |s| && (n > 0 && s != [] ==> EndOfKept(s, n) > 0)
    decreases |s|
  {
    if n != 0 && s != [] {
      EndOfKeptFits(s[1..], if s[0] == 9 || s[0] == 13 then n else n - 1);
    }
  }

  function Capitals(s: seq<byte>): seq<byte> {
    if s == [] then [] else [if 97 <= s[0] <= 122 then s[0] - 32 else s[0]] + Capitals(s[1..])
  }

  function Number(digits: seq<byte>): nat
    requires forall i :: 0 <= i < |digits| ==> Is(Digits, digits[i])
  {
    if digits == [] then 0
    else
      assert Is(Digits, digits[|digits| - 1]);
      Number(digits[..|digits| - 1]) * 10 + (digits[|digits| - 1] - 48)
  }

  // ---- The parts of a request -------------------------------------------------------------------

  /** A part read from the start of the text, or an error after some of it, or a text that is cut off. */
  datatype Part<+V> = Took(value: V, rest: seq<byte>) | Refused(kind: ErrorKind, rest: seq<byte>) | Cut

  /** A command name and the blank that ends it. */
  datatype NameEnd = NameEnd(name: seq<byte>, end: byte)

  /** The length of a literal, and whether the client waits for a prompt. */
  datatype Size = Size(count: nat, sync: bool)

  ghost predicate Advances<V>(p: Part<V>, s: seq<byte>) {
    !p.Cut? ==> |p.rest| < |s|
  }

  /** A tag of at most 128 bytes, up to a space; `got` is what has been read of it. */
  function TagPart(utf8: seq<byte> -> bool, got: seq<byte>, s: seq<byte>): (p: Part<seq<byte>>)
    requires |got| <= 128
    ensures Advances(p, s)
  {
    var n := Span(TagBytes, s);
    var tag := got + Kept(s[..n]);
    EndOfKeptFits(s, 129 - |got|);
    if |tag| > 128 then Refused(TagTooLong, s[EndOfKept(s, 129 - |got|)..]) else TagEnd(utf8, tag, s[n..])
  }

  function TagEnd(utf8: seq<byte> -> bool, tag: seq<byte>, s: seq<byte>): (p: Part<seq<byte>>)
    ensures Advances(p, s)
  {
    if s == [] then Cut
    else if s[0] == 10 then Refused(MissingCommand, s[1..])
    else if !utf8(tag) then Refused(TagNotUtf8, s[1..])
    else Took(tag, s[1..])
  }

  /** A command name of at most 15 letters and digits, in any case, and the blank after it. */
  function NamePart(got: seq<byte>, s: seq<byte>): (p: Part<NameEnd>)
    requires |got| <= 15
    ensures Advances(p, s)
  {
    Spelled(got, if got == [] then s[Span(Blanks, s)..] else s)
  }

  function Spelled(got: seq<byte>, s: seq<byte>): (p: Part<NameEnd>)
    requires |got| <= 15
    ensures Advances(p, s)
  {
    var n := Span(Letters, s);
    if n + |got| > 15 then Refused(CommandTooLong, s[16 - |got|..]) else BlankAfter(got + Capitals(s[..n]), s[n..])
  }

  function BlankAfter(name: seq<byte>, s: seq<byte>): (p: Part<NameEnd>)
    ensures Advances(p, s)
  {
    if s == [] then Cut
    else if !Is(Blanks, s[0]) then Refused(InvalidCommandChar, s[1..])
    else Took(NameEnd(name, s[0]), s[1..])
  }

  /** An atom of at most 4096 bytes, up to a blank or punctuation. */
  function WordPart(brackets: bool, got: seq<byte>, s: seq<byte>): (p: Part<seq<byte>>)
    requires |got| <= 4096
    ensures p.Refused? ==> |p.rest| < |s|
    ensures p.Took? ==> 0 < |p.rest| <= |s| && (got == [] && s != [] && Is(WordBytes(brackets), s[0]) ==> |p.rest| < |s|)
  {
    var n := Span(WordBytes(brackets), s);
    if |got| + n > 4096 then Refused(ArgumentTooLong, s[4097 - |got|..])
    else if n == |s| then Cut
    else Took(got + s[..n], s[n..])
  }

  /**
   A quoted string of at most 4096 bytes, up to the closing quote. A backslash stands before a quote
   or a backslash; before anything else it stands for itself.
   */
  function QuotePart(got: seq<byte>, s: seq<byte>): (p: Part<seq<byte>>)
    ensures Advances(p, s)
    decreases |s|
  {
    if s == [] || s == [92] then Cut
    else if s[0] == 34 then Took(got, s[1..])
    else
      var escaped := s[0] == 92;
      var ch, rest := if escaped then s[1] else s[0], if escaped then s[2..] else s[1..];
      var unit := if escaped && ch != 34 && ch != 92 then [92, ch] else [ch];
      if ch == 10 then Refused(UnterminatedQuoted, rest)
      else if |got| + |unit| > 4096 then Refused(QuotedTooLong, rest)
      else QuotePart(got + unit, rest)
  }

  /** The length of a literal: at most 15 digits, plus signs if it does not wait, a closing brace. */
  function LengthPart(got: seq<byte>, plus: bool, s: seq<byte>): (p: Part<Size>)
    requires |got| <= 15 && forall i :: 0 <= i < |got| ==> Is(Digits, got[i])
    ensures Advances(p, s)
  {
    var n := if plus then 0 else Span(Digits, s);
    if |got| + n > 15 then Refused(TooManyDigits, s[16 - |got|..]) else LengthEnd(got + s[..n], plus, s[n..])
  }

  function LengthEnd(digits: seq<byte>, plus: bool, s: seq<byte>): (p: Part<Size>)
    requires forall i :: 0 <= i < |digits| ==> Is(Digits, digits[i])
    ensures Advances(p, s)
  {
    var rest := s[Span(Pluses, s)..];
    if digits == [] && |rest| < |s| then Refused(InvalidNonSync, s[1..])
    else if rest == [] then Cut
    else if rest[0] == 125 then
      if digits == [] then Refused(EmptyLiteral, rest[1..])
      else if Number(digits) >= 4_294_967_296 then Refused(LiteralSizeInvalid, rest[1..])
      else Took(Size(Number(digits), !plus && |rest| == |s|), rest[1..])
    else if Is(Digits, rest[0]) then Refused(DigitAfterPlus, rest[1..])
    else Refused(InvalidLiteralChar, rest[1..])
  }

  /** The end of the line after a literal's length. */
  function LineEndPart(s: seq<byte>): (p: Part<bool>)
    ensures Advances(p, s)
  {
    var n := Span(LineBlanks, s);
    if n == |s| then Cut
    else if s[n] != 10 then Refused(MissingCrlf, s[n + 1..])
    else Took(true, s[n + 1..])
  }

  // ---- Whole requests ---------------------------------------------------------------------------

  /** What is reported while reading requests from the start of the text. */
  ghost function Requests<T>(cfg: Config<T>, s: seq<byte>): seq<Event<T>>
    decreases |s|, 4
  {
    if cfg.start != Start then Named(cfg, [], false, [], s)
    else
      var n := Span(Blanks, s);
      if n == |s| then [] else Tagged(cfg, [], s[n..])
  }

  /** The request is refused, and the next one starts at `rest`. */
  ghost function Refuse<T>(cfg: Config<T>, tag: seq<byte>, kind: ErrorKind, rest: seq<byte>): seq<Event<T>>
    decreases |rest|, 5
  {
    [Rejected(if tag == [] then None else Some(tag), kind)] + Requests(cfg, rest)
  }

  ghost function Tagged<T>(cfg: Config<T>, got: seq<byte>, s: seq<byte>): seq<Event<T>>
    requires |got| <= 128
    decreases |s|, 3
  {
    match TagPart(cfg.utf8, got, s)
    case Cut => []
    case Refused(kind, rest) => Refuse(cfg, [], kind, rest)
    case Took(tag, rest) => Named(cfg, tag, false, [], rest)
  }

  /** The command, possibly after `UID`. */
  ghost function Named<T>(cfg: Config<T>, tag: seq<byte>, uid: bool, got: seq<byte>, s: seq<byte>): seq<Event<T>>
    requires |got| <= 15
    decreases |s|, 3
  {
    match NamePart(got, s)
    case Cut => []
    case Refused(kind, rest) => Refuse(cfg, tag, kind, rest)
    case Took(v, rest) =>
      if v.name == [85, 73, 68] then Named(cfg, tag, true, [], rest)
      else match cfg.parse(v.name, uid)
        case None => Refuse(cfg, tag, UnrecognizedCommand, rest)
        case Some(c) =>
          var r := Request(tag, c, []);
          if v.end == 10 then [Completed(r)] + Requests(cfg, rest) else Arguments(cfg, r, 0, true, rest)
  }

  /** The next argument or punctuation; `blank` says whether strings may start here. */
  ghost function Arguments<T>(cfg: Config<T>, r: Request<T>, size: nat, blank: bool, s: seq<byte>): seq<Event<T>>
    decreases |s|, 1
  {
    if s == [] then []
    else
      var rest := s[1..];
      var mark := Mark(cfg.brackets(r.command), s[0]);
      if blank && s[0] == 34 then QuotedText(cfg, r, size, [], rest)
      else if blank && s[0] == 123 then Sized(cfg, r, size, [], false, rest)
      else if s[0] == 126 && rest != [] && rest[0] == 123 then Sized(cfg, r, size, [], false, rest[1..])
      else if mark.Some? then Counted(cfg, r, size, 1, mark.value, blank, rest, rest)
      else if s[0] == 10 then [Completed(r)] + Requests(cfg, rest)
      else if Is(Blanks, s[0]) then Arguments(cfg, r, size, true, rest)
      else Word(cfg, r, size, [], s)
  }

  /** A token that counts for `n` bytes, unless that makes the request too large; then the rest, or after an error `skip`. */
  ghost function Counted<T>(cfg: Config<T>, r: Request<T>, size: nat, n: nat, t: Token, blank: bool,
                            rest: seq<byte>, skip: seq<byte>): seq<Event<T>>
    requires |skip| <= |rest|
    decreases |rest|, 6
  {
    if size + n > cfg.maxSize then Refuse(cfg, r.tag, RequestTooLarge, skip)
    else Arguments(cfg, r.(tokens := r.tokens + [t]), size + n, blank, rest)
  }

  ghost function Word<T>(cfg: Config<T>, r: Request<T>, size: nat, got: seq<byte>, s: seq<byte>): seq<Event<T>>
    requires |got| <= 4096 && (got == [] ==> s != [] && Is(WordBytes(cfg.brackets(r.command)), s[0]))
    decreases |s|, if got == [] then 0 else 7
  {
    match WordPart(cfg.brackets(r.command), got, s)
    case Cut => []
    case Refused(kind, rest) => Refuse(cfg, r.tag, kind, rest)
    case Took(word, rest) => Counted(cfg, r, size, |word|, Argument(word), false, rest, rest[1..])
  }

  ghost function QuotedText<T>(cfg: Config<T>, r: Request<T>, size: nat, got: seq<byte>, s: seq<byte>): seq<Event<T>>
    decreases |s|, 0
  {
    match QuotePart(got, s)
    case Cut => []
    case Refused(kind, rest) => Refuse(cfg, r.tag, kind, rest)
    case Took(text, rest) =>
      if text == [] then Arguments(cfg, r.(tokens := r.tokens + [Nil]), size, true, rest)
      else Counted(cfg, r, size, |text|, Argument(text), true, rest, rest)
  }

  ghost function Sized<T>(cfg: Config<T>, r: Request<T>, size: nat, got: seq<byte>, plus: bool, s: seq<byte>): seq<Event<T>>
    requires |got| <= 15 && forall i :: 0 <= i < |got| ==> Is(Digits, got[i])
    decreases |s|, 0
  {
    match LengthPart(got, plus, s)
    case Cut => []
    case Refused(kind, rest) => Refuse(cfg, r.tag, kind, rest)
    case Took(v, rest) =>
      if size + v.count > cfg.maxSize then Refuse(cfg, r.tag, LiteralTooLarge, rest)
      else Data(cfg, r, size, v.count, v.sync, rest)
  }

  /** The line end, a prompt if the client waits for it, and `n` bytes whatever they are. */
  ghost function Data<T>(cfg: Config<T>, r: Request<T>, size: nat, n: nat, sync: bool, s: seq<byte>): seq<Event<T>>
    decreases |s|, 0
  {
    match LineEndPart(s)
    case Cut => []
    case Refused(kind, rest) => Refuse(cfg, r.tag, kind, rest)
    case Took(_, rest) =>
      var prompt := if sync then [NeedsLiteral(n)] else [];
      if n == 0 then
        if size + 1 > cfg.maxSize then Refuse(cfg, r.tag, RequestTooLarge, rest)
        else prompt + Arguments(cfg, r.(tokens := r.tokens + [Nil]), size + 1, true, rest)
      else if |rest| < n then prompt
      else prompt + Arguments(cfg, r.(tokens := r.tokens + [Argument(rest[..n])]), size + n, true, rest[n..])
  }
}
