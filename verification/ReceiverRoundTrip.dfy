/**
 Printing a request in IMAP syntax and reading it back.

 An argument may be printed as an atom, as a quoted string, or as a literal that does or does not
 wait for the server's prompt; the reader must give back the same request whichever was chosen.
 */
module ReceiverRoundTrip {
  import opened Basics
  import opened ReceiverModel
  import opened ReceiverSafety

  /** One argument or punctuation token together with the syntax chosen for it. */
  datatype Piece =
    | Atom(bytes: seq<byte>)
    | QuotedString(bytes: seq<byte>)
    | LiteralString(bytes: seq<byte>, sync: bool)
    | Punct(token: Token)

  /** The token a piece stands for: an empty string, however written, is `Nil`. */
  function Value(p: Piece): Token {
    match p
    case Atom(b) => Argument(b)
    case QuotedString(b) => if b == [] then Nil else Argument(b)
    case LiteralString(b, _) => if b == [] then Nil else Argument(b)
    case Punct(t) => t
  }

  /** A piece, and whether a space stands before it. */
  datatype Placed = Placed(spaced: bool, piece: Piece)

  function Values(xs: seq<Placed>): seq<Token> {
    if xs == [] then [] else [Value(xs[0].piece)] + Values(xs[1..])
  }

  /** What a piece adds to the counted request size. */
  function Cost(p: Piece): nat {
    match p
    case Atom(b) => |b|
    case QuotedString(b) => |b|
    case LiteralString(b, _) => if b == [] then 1 else |b|
    case Punct(_) => 1
  }

  function TotalCost(xs: seq<Placed>): nat {
    if xs == [] then 0 else Cost(xs[0].piece) + TotalCost(xs[1..])
  }

  /** The prompts a client sees while sending a piece. */
  function Prompts<T>(p: Piece): seq<Event<T>> {
    if p.LiteralString? && p.sync then [NeedsLiteral(|p.bytes|)] else []
  }

  function AllPrompts<T>(xs: seq<Placed>): seq<Event<T>> {
    if xs == [] then [] else Prompts(xs[0].piece) + AllPrompts(xs[1..])
  }

  function Digits(n: nat): (s: seq<byte>)
    ensures s != [] && forall i :: 0 <= i < |s| ==> IsDigit(s[i])
  {
    if n < 10 then [48 + n] else Digits(n / 10) + [48 + n % 10]
  }

  function Escape(b: seq<byte>): seq<byte> {
    if b == [] then []
    else EscapeByte(b[0]) + Escape(b[1..])
  }

  function PunctByte(t: Token): byte
    requires !t.Argument? && !t.Nil?
  {
    match t
    case ParenthesisOpen => LPAREN
    case ParenthesisClose => RPAREN
    case BracketOpen => LBRACKET
    case BracketClose => RBRACKET
    case Lt => LESS
    case Gt => GREATER
    case Dot => DOT
  }

  function LiteralHead(n: nat, sync: bool): seq<byte> {
    [LBRACE] + Digits(n) + (if sync then [] else [PLUS]) + [RBRACE, CR]
  }

  function Print(p: Piece): seq<byte>
    requires p.Punct? ==> !p.token.Argument? && !p.token.Nil?
  {
    match p
    case Atom(b) => b
    case QuotedString(b) => [DQUOTE] + Escape(b) + [DQUOTE]
    case LiteralString(b, sync) => LiteralHead(|b|, sync) + ([LF] + b)
    case Punct(t) => [PunctByte(t)]
  }

  /** Bytes that may stand in an unquoted argument of command `c`. */
  predicate IsAtomByte<T>(cfg: Config<T>, c: T, ch: byte) {
    !IsSpace(ch) && Punctuation(cfg, c, ch).None?
  }

  /** What the syntax can carry: the reader's limits and nothing else. */
  ghost predicate Printable<T>(cfg: Config<T>, c: T, p: Piece) {
    match p
    case Atom(b) =>
      && 0 < |b| <= ARG_MAX_LEN
      && (forall i :: 0 <= i < |b| ==> IsAtomByte(cfg, c, b[i]))
      && b[0] != DQUOTE && b[0] != LBRACE
      && !(|b| >= 2 && b[0] == TILDE && b[1] == LBRACE)
    case QuotedString(b) => |b| <= ARG_MAX_LEN && LF !in b
    case LiteralString(b, _) => |b| < U32_LIMIT
    case Punct(t) => !t.Argument? && !t.Nil? && Punctuation(cfg, c, PunctByte(t)) == Some(t)
  }

  ghost predicate AllPrintable<T>(cfg: Config<T>, c: T, xs: seq<Placed>) {
    forall i :: 0 <= i < |xs| ==> Printable(cfg, c, xs[i].piece)
  }

  /**
   What the text so far ends in: the command name; a space, a string or punctuation after one of
   these; an atom; or punctuation right after an atom.
   */
  datatype Gap = AtName | Ready | InAtom | Stale

  /** The piece may follow without a space. */
  predicate MayTouch(g: Gap, p: Piece) {
    match g
    case AtName => false
    case Ready => true
    case InAtom => p.Punct?
    case Stale => p.Punct? || p.Atom?
  }

  function Beyond(g: Gap, x: Placed): Gap {
    match x.piece
    case Atom(_) => InAtom
    case Punct(_) => if x.spaced || g.Ready? then Ready else Stale
    case _ => Ready
  }

  predicate Legible(g: Gap, xs: seq<Placed>)
    decreases |xs|
  {
    xs == [] || ((xs[0].spaced || MayTouch(g, xs[0].piece)) && Legible(Beyond(g, xs[0]), xs[1..]))
  }

  /** Each piece with its space, if it has one. */
  ghost function PrintAll<T>(cfg: Config<T>, c: T, xs: seq<Placed>): seq<byte>
    requires AllPrintable(cfg, c, xs)
  {
    if xs == [] then [] else (if xs[0].spaced then [SP] else []) + Print(xs[0].piece) + PrintAll(cfg, c, xs[1..])
  }

  /** The receiver between two tokens: nothing buffered, a space just read. */
  ghost predicate Clean<T>(m: Machine<T>) {
    m.buf == [] && m.state == Args(SP)
  }

  /** `m` holds exactly what `c` does, but may still have to see the end of the last token. */
  ghost predicate Flushes<T>(cfg: Config<T>, m: Machine<T>, c: Machine<T>) {
    && Clean(c)
    && Step(cfg, m, SP) == Go(c)
    && Run(cfg, m, [CR, LF]) == Trace(Fresh(cfg), [Completed(c.request)])
  }

  /** The clean machine after token `t` of cost `n`. */
  function After<T>(c: Machine<T>, t: Token, n: nat): Machine<T> {
    WithToken(c, t).(size := c.size + n)
  }

  lemma RunTwo<T>(cfg: Config<T>, m: Machine<T>, x: byte, y: byte)
    ensures var o := Step(cfg, m, x);
            var o' := Step(cfg, o.machine, y);
            Run(cfg, m, [x, y]) == Trace(o'.machine, ToSeq(o.event) + ToSeq(o'.event))
  {
    hide Step;
    RunOne(cfg, m, x);
    RunOne(cfg, Step(cfg, m, x).machine, y);
    RunAppend(cfg, m, [x], [y]);
    assert [x] + [y] == [x, y];
  }

  lemma CleanFlushes<T>(cfg: Config<T>, c: Machine<T>)
    requires Clean(c)
    ensures Flushes(cfg, c, c)
  {
    RunTwo(cfg, c, CR, LF);
  }

  // ---- Atoms -------------------------------------------------------------------------------

  ghost function Pending<T>(c: Machine<T>, b: seq<byte>): Machine<T>
    requires b != []
  {
    c.(buf := b, state := Args(b[|b| - 1]))
  }

  /** Between tokens: nothing buffered, after a space or right after an atom's punctuation. */
  ghost predicate Between<T>(m: Machine<T>, c: Machine<T>) {
    Clean(c) && (m == c || (m.state.Args? && !IsSpace(m.state.lastCh) && m == c.(state := m.state)))
  }

  lemma ReadAtomByte<T>(cfg: Config<T>, m: Machine<T>, c: Machine<T>, b: seq<byte>, ch: byte)
    requires Between(m, c) && Printable(cfg, c.request.command, Atom(b + [ch]))
    ensures Step(cfg, if b == [] then m else Pending(c, b), ch) == Go(Pending(c, b + [ch]))
  {
    assert IsAtomByte(cfg, c.request.command, (b + [ch])[|b|]);
    if b != [] {
      assert IsAtomByte(cfg, c.request.command, (b + [ch])[|b| - 1]);
    }
  }

  lemma {:induction false} ReadAtom<T>(cfg: Config<T>, m: Machine<T>, c: Machine<T>, b: seq<byte>)
    requires Between(m, c) && Printable(cfg, c.request.command, Atom(b))
    ensures Run(cfg, m, b) == Trace(Pending(c, b), [])
    decreases |b|
  {
    var front, ch := b[..|b| - 1], b[|b| - 1];
    assert b == front + [ch];
    ReadAtomByte(cfg, m, c, front, ch);
    if front == [] {
      RunOne(cfg, m, ch);
    } else {
      ReadAtom(cfg, m, c, front);
      RunSnoc(cfg, m, front, ch);
    }
    hide Step, Run;
  }

  lemma PendingFlushes<T>(cfg: Config<T>, c: Machine<T>, b: seq<byte>)
    requires Clean(c) && b != [] && c.size + |b| <= cfg.maxSize
    ensures Flushes(cfg, Pending(c, b), After(c, Argument(b), |b|))
  {
    var m := Pending(c, b);
    var c' := After(c, Argument(b), |b|);
    assert Step(cfg, m, SP) == Go(c');
    assert Step(cfg, m, CR) == Go(c'.(state := Args(CR)));
    assert Step(cfg, c'.(state := Args(CR)), LF) == Finish(cfg, c');
    hide Step;
    RunTwo(cfg, m, CR, LF);
  }

  // ---- Quoted strings ----------------------------------------------------------------------

  function EscapeByte(ch: byte): seq<byte> {
    if ch == DQUOTE || ch == BACKSLASH then [BACKSLASH, ch] else [ch]
  }

  lemma ReadEscapedByte<T>(cfg: Config<T>, m: Machine<T>, ch: byte)
    requires m.state == Quoted(false) && |m.buf| < ARG_MAX_LEN && ch != LF
    ensures Run(cfg, m, EscapeByte(ch)) == Trace(m.(buf := m.buf + [ch]), [])
  {
    if ch == DQUOTE || ch == BACKSLASH {
      RunTwo(cfg, m, BACKSLASH, ch);
    } else {
      RunOne(cfg, m, ch);
    }
  }

  lemma {:induction false} ReadEscaped<T>(cfg: Config<T>, m: Machine<T>, b: seq<byte>)
    requires m.state == Quoted(false) && |m.buf| + |b| <= ARG_MAX_LEN && LF !in b
    ensures Run(cfg, m, Escape(b)) == Trace(m.(buf := m.buf + b), [])
    decreases |b|
  {
    hide Step, EscapeByte, Run;
    if b == [] {
      assert Run(cfg, m, []) == Trace(m, []) by { RunNone(cfg, m); }
      assert m.buf + b == m.buf;
    } else {
      var m' := m.(buf := m.buf + [b[0]]);
      ReadEscapedByte(cfg, m, b[0]);
      ReadEscaped(cfg, m', b[1..]);
      RunAppend(cfg, m, EscapeByte(b[0]), Escape(b[1..]));
      assert b == [b[0]] + b[1..];
      AppendAssoc(m.buf, [b[0]], b[1..]);
    }
  }

  lemma ReadQuoted<T>(cfg: Config<T>, c: Machine<T>, b: seq<byte>)
    requires Clean(c) && |b| <= ARG_MAX_LEN && LF !in b && c.size + |b| <= cfg.maxSize
    ensures Run(cfg, c, Print(QuotedString(b))) == Trace(After(c, Value(QuotedString(b)), |b|), [])
  {
    var m := c.(state := Quoted(false));
    var m' := m.(buf := b);
    var end := After(c, Value(QuotedString(b)), |b|);
    assert Step(cfg, c, DQUOTE) == Go(m);
    assert Step(cfg, m', DQUOTE) == Go(end);
    hide Step;
    RunOne(cfg, c, DQUOTE);
    ReadEscaped(cfg, m, b);
    assert m.buf + b == b;
    RunOne(cfg, m', DQUOTE);
    RunAppend(cfg, c, [DQUOTE], Escape(b));
    RunAppend(cfg, c, [DQUOTE] + Escape(b), [DQUOTE]);
  }

  // ---- Literals ----------------------------------------------------------------------------

  lemma {:induction false} DigitsValue(n: nat)
    ensures Decimal(Digits(n)) == n
  {
    if n < 10 {
      assert Digits(n)[..0] == [];
    } else {
      DigitsValue(n / 10);
      var s := Digits(n);
      assert s[..|s| - 1] == Digits(n / 10);
    }
  }

  lemma {:induction false} DigitsLength(n: nat, k: nat)
    requires 0 < k && n < Power10(k)
    ensures |Digits(n)| <= k
    decreases k
  {
    if n >= 10 {
      DigitsLength(n / 10, k - 1);
    }
  }

  function Power10(k: nat): nat {
    if k == 0 then 1 else 10 * Power10(k - 1)
  }

  lemma {:induction false} ReadDigits<T>(cfg: Config<T>, m: Machine<T>, s: seq<byte>)
    requires m.state == Literal(false) && m.buf == [] && |s| <= LITERAL_DIGITS_MAX
    requires forall i :: 0 <= i < |s| ==> IsDigit(s[i])
    ensures Run(cfg, m, s) == Trace(m.(buf := s), [])
    decreases |s|
  {
    if s != [] {
      var front, ch := s[..|s| - 1], s[|s| - 1];
      assert s == front + [ch] && IsDigit(ch);
      ReadDigits(cfg, m, front);
      RunSnoc(cfg, m, front, ch);
    }
  }

  lemma ReadLiteralHead<T>(cfg: Config<T>, c: Machine<T>, n: nat, sync: bool)
    requires Clean(c) && n < U32_LIMIT && c.size + n <= cfg.maxSize
    ensures Run(cfg, c, LiteralHead(n, sync)) == Trace(c.(state := LiteralSeek(n, !sync)), [])
  {
    var d := Digits(n);
    DigitsValue(n);
    assert Power10(10) == 10_000_000_000 by {
      assert Power10(5) == 100_000;
    }
    DigitsLength(n, 10);
    var open := c.(state := Literal(false));
    var sized := open.(buf := d);
    var tail := (if sync then [] else [PLUS]) + [RBRACE, CR];
    assert Run(cfg, c, [LBRACE]) == Trace(open, []) by { RunOne(cfg, c, LBRACE); }
    assert Run(cfg, open, d) == Trace(sized, []) by { ReadDigits(cfg, open, d); }
    assert Run(cfg, sized, tail) == Trace(c.(state := LiteralSeek(n, !sync)), []) by {
      ReadLiteralTail(cfg, c, n, sync);
    }
    hide Step, Run, Digits;
    RunAppend(cfg, c, [LBRACE], d);
    RunAppend(cfg, c, [LBRACE] + d, tail);
    AppendAssoc([LBRACE] + d, if sync then [] else [PLUS], [RBRACE, CR]);
  }

  lemma ReadLiteralTail<T>(cfg: Config<T>, c: Machine<T>, n: nat, sync: bool)
    requires Clean(c) && n < U32_LIMIT && c.size + n <= cfg.maxSize && Decimal(Digits(n)) == n
    ensures Run(cfg, c.(state := Literal(false), buf := Digits(n)), (if sync then [] else [PLUS]) + [RBRACE, CR])
         == Trace(c.(state := LiteralSeek(n, !sync)), [])
  {
    var m := c.(state := Literal(!sync), buf := Digits(n));
    assert ParseU32(Digits(n)) == Some(n);
    hide Decimal, Digits, ParseU32;
    RunTwo(cfg, m, RBRACE, CR);
    if sync {
      assert [] + [RBRACE, CR] == [RBRACE, CR];
    } else {
      var m0 := c.(state := Literal(false), buf := Digits(n));
      RunOne(cfg, m0, PLUS);
      RunAppend(cfg, m0, [PLUS], [RBRACE, CR]);
    }
  }

  lemma ReadLiteralData<T>(cfg: Config<T>, c: Machine<T>, b: seq<byte>, sync: bool)
    requires Clean(c) && |b| < U32_LIMIT && c.size + Cost(LiteralString(b, sync)) <= cfg.maxSize
    ensures var p := LiteralString(b, sync);
            Run(cfg, c.(state := LiteralSeek(|b|, !sync)), [LF] + b) == Trace(After(c, Value(p), Cost(p)), Prompts(p))
  {
    var m := c.(state := LiteralSeek(|b|, !sync));
    if b == [] {
      assert [LF] + b == [LF];
      RunOne(cfg, m, LF);
    } else {
      hide Run, Step;
      AcceptedLiteralIsTaken(cfg, m, b);
    }
  }

  lemma ReadLiteral<T>(cfg: Config<T>, c: Machine<T>, b: seq<byte>, sync: bool)
    requires Clean(c) && |b| < U32_LIMIT && c.size + Cost(LiteralString(b, sync)) <= cfg.maxSize
    ensures var p := LiteralString(b, sync);
            Run(cfg, c, Print(p)) == Trace(After(c, Value(p), Cost(p)), Prompts(p))
  {
    var m := c.(state := LiteralSeek(|b|, !sync));
    hide LiteralHead, Run;
    ReadLiteralHead(cfg, c, |b|, sync);
    ReadLiteralData(cfg, c, b, sync);
    hide Step;
    RunAppend(cfg, c, LiteralHead(|b|, sync), [LF] + b);
  }

  // ---- One piece, then all of them ---------------------------------------------------------

  /** The reader after what `g` says, holding what `c` does once the last token is seen to end. */
  ghost predicate Stands<T>(cfg: Config<T>, g: Gap, m: Machine<T>, c: Machine<T>) {
    Flushes(cfg, m, c) &&
    match g
    case AtName => true
    case Ready => m == c
    case InAtom => m.state.Args? && !IsSpace(m.state.lastCh) && PushArgument(cfg, m, false) == Go(c.(state := m.state))
    case Stale => Between(m, c)
  }

  lemma BetweenFlushes<T>(cfg: Config<T>, m: Machine<T>, c: Machine<T>)
    requires Between(m, c)
    ensures Flushes(cfg, m, c)
  {
    RunTwo(cfg, m, CR, LF);
  }

  lemma PunctByteIsPlain(t: Token)
    requires !t.Argument? && !t.Nil?
    ensures var ch := PunctByte(t);
            ch != DQUOTE && ch != LBRACE && ch != LF && !IsSpace(ch)
  {
  }

  /** Punctuation ends the atom before it: first the argument, then the token. */
  lemma ReadPunct<T>(cfg: Config<T>, g: Gap, m: Machine<T>, c: Machine<T>, t: Token)
    requires Stands(cfg, g, m, c) && !g.AtName? && Printable(cfg, c.request.command, Punct(t)) && c.size + 1 <= cfg.maxSize
    ensures var end := Run(cfg, m, [PunctByte(t)]);
            end.events == [] && Stands(cfg, Beyond(g, Placed(false, Punct(t))), end.machine, After(c, t, 1))
  {
    PunctByteIsPlain(t);
    var c', ch := After(c, t, 1), PunctByte(t);
    assert PushArgument(cfg, m, false) == Go(c.(state := m.state));
    assert m.request.command == c.request.command;
    assert Step(cfg, m, ch) == Go(c'.(state := m.state));
    hide Step, PushArgument, Printable, Flushes, PunctByte;
    RunOne(cfg, m, ch);
    BetweenFlushes(cfg, c'.(state := m.state), c');
  }

  /** A piece that is not touched by an atom. */
  lemma ReadString<T>(cfg: Config<T>, c: Machine<T>, p: Piece)
    requires Clean(c) && Printable(cfg, c.request.command, p) && c.size + Cost(p) <= cfg.maxSize
    requires p.QuotedString? || p.LiteralString?
    ensures var t := Run(cfg, c, Print(p));
            Stands(cfg, Ready, t.machine, After(c, Value(p), Cost(p))) && t.events == Prompts(p)
  {
    var end := After(c, Value(p), Cost(p));
    CleanFlushes(cfg, end);
    hide Run, Step, Flushes;
    match p
    case QuotedString(b) => ReadQuoted(cfg, c, b);
    case LiteralString(b, sync) => ReadLiteral(cfg, c, b, sync);
  }

  lemma ReadAtomPiece<T>(cfg: Config<T>, m: Machine<T>, c: Machine<T>, b: seq<byte>)
    requires Between(m, c) && Printable(cfg, c.request.command, Atom(b)) && c.size + |b| <= cfg.maxSize
    ensures var t := Run(cfg, m, b);
            Stands(cfg, InAtom, t.machine, After(c, Argument(b), |b|)) && t.events == []
  {
    ReadAtom(cfg, m, c, b);
    assert IsAtomByte(cfg, c.request.command, b[|b| - 1]);
    hide Run;
    PendingFlushes(cfg, c, b);
  }

  lemma ReadPiece<T>(cfg: Config<T>, g: Gap, m: Machine<T>, c: Machine<T>, p: Piece)
    requires Stands(cfg, g, m, c) && MayTouch(g, p)
    requires Printable(cfg, c.request.command, p) && c.size + Cost(p) <= cfg.maxSize
    ensures var t := Run(cfg, m, Print(p));
            && Stands(cfg, Beyond(g, Placed(false, p)), t.machine, After(c, Value(p), Cost(p)))
            && t.events == Prompts(p)
  {
    match p
    case Atom(b) => ReadAtomPiece(cfg, m, c, b);
    case Punct(t) => ReadPunct(cfg, g, m, c, t);
    case _ => ReadString(cfg, c, p);
  }

  lemma ReadPlaced<T>(cfg: Config<T>, g: Gap, m: Machine<T>, c: Machine<T>, x: Placed)
    requires Stands(cfg, g, m, c) && (x.spaced || MayTouch(g, x.piece))
    requires Printable(cfg, c.request.command, x.piece) && c.size + Cost(x.piece) <= cfg.maxSize
    ensures var t := Run(cfg, m, (if x.spaced then [SP] else []) + Print(x.piece));
            && Stands(cfg, Beyond(g, x), t.machine, After(c, Value(x.piece), Cost(x.piece)))
            && t.events == Prompts(x.piece)
  {
    var p := x.piece;
    if x.spaced {
      CleanFlushes(cfg, c);
      ReadPiece(cfg, Ready, c, c, p);
      assert Step(cfg, m, SP) == Go(c);
      hide Step, Print, Printable, Value, Cost, Prompts, Stands, Run;
      RunOne(cfg, m, SP);
      RunAppend(cfg, m, [SP], Print(p));
    } else {
      ReadPiece(cfg, g, m, c, p);
      assert [] + Print(p) == Print(p);
    }
  }

  lemma StaleIs<T>(cfg: Config<T>, m: Machine<T>, c: Machine<T>)
    requires Stands(cfg, Stale, m, c)
    ensures m.buf == [] && m.request == c.request && m.size == c.size
  {
    hide Flushes;
  }

  /** An atom and the punctuation that ends it give first the argument and then the token. */
  lemma AtomThenPunct<T>(cfg: Config<T>, c: Machine<T>, b: seq<byte>, t: Token)
    requires Clean(c) && Printable(cfg, c.request.command, Atom(b)) && Printable(cfg, c.request.command, Punct(t))
    requires c.size + |b| + 1 <= cfg.maxSize
    ensures var end := Run(cfg, c, b + [PunctByte(t)]);
            && end.events == [] && end.machine.buf == [] && end.machine.size == c.size + |b| + 1
            && end.machine.request == c.request.(tokens := c.request.tokens + [Argument(b), t])
  {
    assert !t.Argument? && !t.Nil?;
    hide Step, Printable, Run, PushArgument, Flushes, Stands;
    ReadAtomPiece(cfg, c, c, b);
    var m, c1 := Run(cfg, c, b).machine, After(c, Argument(b), |b|);
    ReadPunct(cfg, InAtom, m, c1, t);
    StaleIs(cfg, Run(cfg, m, [PunctByte(t)]).machine, After(c1, t, 1));
    RunAppend(cfg, c, b, [PunctByte(t)]);
    AppendAssoc(c.request.tokens, [Argument(b)], [t]);
    assert [Argument(b)] + [t] == [Argument(b), t];
  }

  lemma {:induction false} ReadAll<T>(cfg: Config<T>, g: Gap, m: Machine<T>, c: Machine<T>, xs: seq<Placed>)
    requires Stands(cfg, g, m, c) && Legible(g, xs)
    requires AllPrintable(cfg, c.request.command, xs) && c.size + TotalCost(xs) <= cfg.maxSize
    ensures Run(cfg, m, PrintAll(cfg, c.request.command, xs) + [CR, LF])
         == Trace(Fresh(cfg), AllPrompts(xs) + [Completed(c.request.(tokens := c.request.tokens + Values(xs)))])
    decreases |xs|
  {
    var cmd := c.request.command;
    var crlf := [CR, LF];
    if xs == [] {
      assert PrintAll(cfg, cmd, xs) + crlf == crlf;
      assert c.request.tokens + Values(xs) == c.request.tokens;
      assert AllPrompts<T>(xs) == [];
    } else {
      var x := xs[0];
      var p := x.piece;
      ReadPlaced(cfg, g, m, c, x);
      hide Step, Print, Value, Cost, Prompts, Stands, Run, MayTouch, Beyond;
      var one, rest := (if x.spaced then [SP] else []) + Print(p), PrintAll(cfg, cmd, xs[1..]);
      var c' := After(c, Value(p), Cost(p));
      ReadAll(cfg, Beyond(g, x), Run(cfg, m, one).machine, c', xs[1..]);
      RunAppend(cfg, m, one, rest + crlf);
      AppendAssoc(one, rest, crlf);
      AppendAssoc(c.request.tokens, [Value(p)], Values(xs[1..]));
      AppendAssoc(Prompts<T>(p), AllPrompts<T>(xs[1..]),
                  [Completed(c.request.(tokens := c.request.tokens + Values(xs)))]);
    }
  }

  // ---- Tag and command ---------------------------------------------------------------------

  /** A tag the reader accepts: not empty, no blank or line end, at most 128 bytes of UTF-8. */
  ghost predicate PrintableTag<T>(cfg: Config<T>, tag: seq<byte>) {
    && 0 < |tag| <= TAG_MAX && cfg.utf8(tag)
    && (forall i :: 0 <= i < |tag| ==> tag[i] != SP && tag[i] != HT && tag[i] != CR && tag[i] != LF)
    && !IsSpace(tag[0])
  }

  lemma {:induction false} ReadTag<T>(cfg: Config<T>, tag: seq<byte>)
    requires cfg.start == Start && PrintableTag(cfg, tag)
    ensures Run(cfg, Fresh(cfg), tag) == Trace(Fresh(cfg).(buf := tag, state := Tag), [])
  {
    ReadTagPrefix(cfg, tag, |tag|);
    assert tag[..|tag|] == tag;
  }

  lemma {:induction false} ReadTagPrefix<T>(cfg: Config<T>, tag: seq<byte>, k: nat)
    requires cfg.start == Start && PrintableTag(cfg, tag) && 0 < k <= |tag|
    ensures Run(cfg, Fresh(cfg), tag[..k]) == Trace(Fresh(cfg).(buf := tag[..k], state := Tag), [])
    decreases k
  {
    if k == 1 {
      assert tag[..1] == [tag[0]];
      RunOne(cfg, Fresh(cfg), tag[0]);
    } else {
      ReadTagPrefix(cfg, tag, k - 1);
      assert tag[..k] == tag[..k - 1] + [tag[k - 1]];
      RunAppend(cfg, Fresh(cfg), tag[..k - 1], [tag[k - 1]]);
      RunOne(cfg, Fresh(cfg).(buf := tag[..k - 1], state := Tag), tag[k - 1]);
    }
  }

  /** A command name in any letter case. */
  ghost predicate PrintableName(name: seq<byte>) {
    0 < |name| <= COMMAND_MAX && forall i :: 0 <= i < |name| ==> IsAlnum(name[i])
  }

  lemma {:induction false} UpperAllAppend(a: seq<byte>, b: seq<byte>)
    ensures UpperAll(a + b) == UpperAll(a) + UpperAll(b)
  {
    if a == [] {
      assert a + b == b;
    } else {
      assert (a + b)[1..] == a[1..] + b;
      UpperAllAppend(a[1..], b);
    }
  }

  lemma {:induction false} UpperAllTwice(s: seq<byte>)
    ensures UpperAll(UpperAll(s)) == UpperAll(s) && |UpperAll(s)| == |s|
  {
    if s != [] {
      UpperAllTwice(s[1..]);
      assert UpperAll(s)[1..] == UpperAll(s[1..]);
    }
  }

  lemma ReadLetter<T>(cfg: Config<T>, m: Machine<T>, ch: byte)
    requires m.state.Command? && |m.buf| < COMMAND_MAX && IsAlnum(ch)
    ensures Step(cfg, m, ch) == Go(m.(buf := m.buf + [Upper(ch)]))
  {
  }

  lemma {:induction false} ReadName<T>(cfg: Config<T>, m: Machine<T>, name: seq<byte>)
    requires m.state.Command? && m.buf == [] && |name| <= COMMAND_MAX
    requires forall i :: 0 <= i < |name| ==> IsAlnum(name[i])
    ensures Run(cfg, m, name) == Trace(m.(buf := UpperAll(name)), [])
    decreases |name|
  {
    if name != [] {
      var front, ch := name[..|name| - 1], name[|name| - 1];
      assert name == front + [ch] && IsAlnum(ch);
      ReadName(cfg, m, front);
      UpperAllAppend(front, [ch]);
      UpperAllTwice(front);
      assert UpperAll([ch]) == [Upper(ch)];
      RunSnoc(cfg, m, front, ch);
      ReadLetter(cfg, m.(buf := UpperAll(front)), ch);
      hide UpperAll, Run, Step;
    }
  }

  /** The request line: `tag ` when the receiver expects one, `UID ` when asked for, the name. */
  function PrintHead<T>(cfg: Config<T>, tag: seq<byte>, uid: bool, name: seq<byte>): seq<byte> {
    (if cfg.start == Start then tag + [SP] else []) + ((if uid then UID + [SP] else []) + name)
  }

  ghost predicate PrintableHead<T>(cfg: Config<T>, tag: seq<byte>, uid: bool, name: seq<byte>, command: T) {
    && GoodConfig(cfg)
    && (if cfg.start == Start then PrintableTag(cfg, tag) else tag == [])
    && PrintableName(name) && UpperAll(name) != UID
    && cfg.parse(UpperAll(name), uid) == Some(command)
  }

  lemma ReadTagPart<T>(cfg: Config<T>, tag: seq<byte>)
    requires GoodConfig(cfg)
    requires if cfg.start == Start then PrintableTag(cfg, tag) else tag == []
    ensures Run(cfg, Fresh(cfg), if cfg.start == Start then tag + [SP] else [])
         == Trace(Machine([], Request(tag, cfg.default, []), Command(false), 0), [])
  {
    if cfg.start == Start {
      ReadTag(cfg, tag);
      RunAppend(cfg, Fresh(cfg), tag, [SP]);
      RunOne(cfg, Fresh(cfg).(buf := tag, state := Tag), SP);
    }
  }

  lemma ReadCommandPart<T>(cfg: Config<T>, m: Machine<T>, uid: bool, name: seq<byte>)
    requires m.state == Command(false) && m.buf == [] && PrintableName(name)
    ensures Run(cfg, m, (if uid then UID + [SP] else []) + name)
         == Trace(m.(buf := UpperAll(name), state := Command(uid)), [])
  {
    var m' := m.(state := Command(uid));
    ReadName(cfg, m', name);
    if uid {
      assert UpperAll(UID) == UID by {
        assert UID[1..] == [73, 68] && UID[1..][1..] == [68] && UID[1..][1..][1..] == [];
      }
      ReadName(cfg, m, UID);
      RunOne(cfg, m.(buf := UID), SP);
      hide UpperAll, Step;
      RunAppend(cfg, m, UID, [SP]);
      RunAppend(cfg, m, UID + [SP], name);
    } else {
      assert [] + name == name;
    }
  }

  lemma NameFlushes<T>(cfg: Config<T>, m: Machine<T>, name: seq<byte>, command: T)
    requires m.state.Command? && m.buf == UpperAll(name) && PrintableName(name)
    requires UpperAll(name) != UID && cfg.parse(UpperAll(name), m.state.isUid) == Some(command)
    ensures Flushes(cfg, m, m.(buf := [], request := m.request.(command := command), state := Args(SP)))
  {
    UpperAllTwice(name);
    hide UpperAll;
    var c := m.(buf := [], request := m.request.(command := command), state := Args(SP));
    assert Step(cfg, m, SP) == Go(c);
    assert Step(cfg, m, CR) == Go(c);
    assert Step(cfg, c, LF) == Finish(cfg, c);
    RunTwo(cfg, m, CR, LF);
  }

  /**
   Printing any request the limits allow, with or without spaces where the syntax lets them be left
   out, and feeding it to a fresh receiver gives one prompt for each synchronising literal, then
   exactly that request, and leaves a fresh receiver.
   */
  lemma RoundTrip<T>(cfg: Config<T>, tag: seq<byte>, uid: bool, name: seq<byte>, command: T, xs: seq<Placed>)
    requires PrintableHead(cfg, tag, uid, name, command)
    requires AllPrintable(cfg, command, xs) && Legible(AtName, xs) && TotalCost(xs) <= cfg.maxSize
    ensures Run(cfg, Fresh(cfg), PrintHead(cfg, tag, uid, name) + (PrintAll(cfg, command, xs) + [CR, LF]))
         == Trace(Fresh(cfg), AllPrompts(xs) + [Completed(Request(tag, command, Values(xs)))])
  {
    hide Step, Run, Printable, Print, UpperAll, PrintAll, AllPrintable, TotalCost, Values, AllPrompts, Legible;
    var first := if cfg.start == Start then tag + [SP] else [];
    var second := (if uid then UID + [SP] else []) + name;
    var m0 := Machine([], Request(tag, cfg.default, []), Command(false), 0);
    var m1 := m0.(buf := UpperAll(name), state := Command(uid));
    var c := Machine([], Request(tag, command, []), Args(SP), 0);
    ReadTagPart(cfg, tag);
    ReadCommandPart(cfg, m0, uid, name);
    RunAppend(cfg, Fresh(cfg), first, second);
    NameFlushes(cfg, m1, name, command);
    ReadAll(cfg, AtName, m1, c, xs);
    assert [] + Values(xs) == Values(xs);
    RunAppend(cfg, Fresh(cfg), first + second, PrintAll(cfg, command, xs) + [CR, LF]);
  }
}
