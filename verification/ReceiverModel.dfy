/**
 The IMAP / ManageSieve request receiver as a byte-at-a-time machine.

 `Step` is one iteration of the receiver's loop; `Run` folds it over a byte stream and collects
 what the receiver reports. `CommandParser` and UTF-8 validation are parameters.
 */
module ReceiverModel {
  import opened Basics

  datatype Token =
    | Argument(bytes: seq<byte>)
    | ParenthesisOpen | ParenthesisClose
    | BracketOpen | BracketClose
    | Lt | Gt | Dot
    | Nil

  datatype Request<+T> = Request(tag: seq<byte>, command: T, tokens: seq<Token>)

  datatype State =
    | Start
    | Tag
    | Command(isUid: bool)
    | Args(lastCh: byte)
    | Quoted(escaped: bool)
    | Literal(nonSync: bool)
    | LiteralSeek(size: nat, seekNonSync: bool)
    | LiteralData(remaining: nat)

  datatype ErrorKind =
    | RequestTooLarge | TagNotUtf8 | MissingCommand | TagTooLong
    | CommandTooLong | UnrecognizedCommand | InvalidCommandChar
    | ArgumentTooLong | QuotedTooLong | UnterminatedQuoted
    | LiteralSizeInvalid | LiteralTooLarge | EmptyLiteral | InvalidNonSync
    | TooManyDigits | DigitAfterPlus | InvalidLiteralChar | MissingCrlf

  /** What the receiver reports to its caller, apart from "needs more data". */
  datatype Event<+T> =
    | Completed(request: Request<T>)
    | NeedsLiteral(size: nat)
    | Rejected(tag: Option<seq<byte>>, kind: ErrorKind)

  /** The command parser, UTF-8 validation, and the two settings of a receiver. */
  datatype Config<!T> = Config(
    parse: (seq<byte>, bool) -> Option<T>,
    brackets: T -> bool,
    default: T,
    utf8: seq<byte> -> bool,
    maxSize: nat,
    start: State)

  /** The mutable fields of a receiver. */
  datatype Machine<+T> = Machine(buf: seq<byte>, request: Request<T>, state: State, size: nat)

  datatype Outcome<+T> = Outcome(machine: Machine<T>, event: Option<Event<T>>)

  const HT: byte := 9
  const LF: byte := 10
  const FF: byte := 12
  const CR: byte := 13
  const SP: byte := 32
  const DQUOTE: byte := 34
  const LPAREN: byte := 40
  const RPAREN: byte := 41
  const PLUS: byte := 43
  const DOT: byte := 46
  const LESS: byte := 60
  const GREATER: byte := 62
  const LBRACKET: byte := 91
  const BACKSLASH: byte := 92
  const RBRACKET: byte := 93
  const LBRACE: byte := 123
  const RBRACE: byte := 125
  const TILDE: byte := 126

  const TAG_MAX: nat := 128
  const COMMAND_MAX: nat := 15
  const LITERAL_DIGITS_MAX: nat := 15
  const ARG_MAX_LEN: nat := 4096
  const U32_LIMIT: nat := 0x1_0000_0000

  const UID: seq<byte> := [85, 73, 68]

  predicate IsSpace(ch: byte) {
    ch == SP || ch == HT || ch == LF || ch == FF || ch == CR
  }

  predicate IsDigit(ch: byte) {
    48 <= ch <= 57
  }

  predicate IsAlnum(ch: byte) {
    IsDigit(ch) || 65 <= ch <= 90 || 97 <= ch <= 122
  }

  function Upper(ch: byte): byte {
    if 97 <= ch <= 122 then ch - 32 else ch
  }

  function UpperAll(s: seq<byte>): seq<byte> {
    if s == [] then [] else [Upper(s[0])] + UpperAll(s[1..])
  }

  lemma {:induction false} UpperIsSame(s: seq<byte>)
    requires forall i :: 0 <= i < |s| ==> Upper(s[i]) == s[i]
    ensures UpperAll(s) == s
    decreases |s|
  {
    if s != [] {
      UpperIsSame(s[1..]);
      HeadTail(s);
    }
  }

  /** The value of a run of ASCII digits. */
  function Decimal(s: seq<byte>): nat
    requires forall i :: 0 <= i < |s| ==> IsDigit(s[i])
  {
    if s == [] then 0
    else
      assert IsDigit(s[|s| - 1]);
      10 * Decimal(s[..|s| - 1]) + (s[|s| - 1] - 48)
  }

  /** `str::parse::<u32>` on a string without a sign. */
  function ParseU32(s: seq<byte>): Option<nat> {
    if s != [] && (forall i :: 0 <= i < |s| ==> IsDigit(s[i])) && Decimal(s) < U32_LIMIT
    then Some(Decimal(s)) else None
  }

  function EmptyRequest<T>(cfg: Config<T>): Request<T> {
    Request([], cfg.default, [])
  }

  function Fresh<T>(cfg: Config<T>): Machine<T> {
    Machine([], EmptyRequest(cfg), cfg.start, 0)
  }

  /** Reject the request and start over. */
  function Fail<T>(cfg: Config<T>, m: Machine<T>, kind: ErrorKind): Outcome<T> {
    var tag := if m.request.tag != [] then Some(m.request.tag) else None;
    Outcome(Fresh(cfg), Some(Rejected(tag, kind)))
  }

  function Go<T>(m: Machine<T>): Outcome<T> {
    Outcome(m, None)
  }

  function WithToken<T>(m: Machine<T>, t: Token): Machine<T> {
    m.(request := m.request.(tokens := m.request.tokens + [t]))
  }

  function PushArgument<T>(cfg: Config<T>, m: Machine<T>, inQuote: bool): Outcome<T> {
    if m.buf != [] then
      if m.size + |m.buf| > cfg.maxSize then Fail(cfg, m, RequestTooLarge)
      else Go(WithToken(m, Argument(m.buf)).(buf := [], size := m.size + |m.buf|))
    else if inQuote then Go(WithToken(m, Nil))
    else Go(m)
  }

  function PushToken<T>(cfg: Config<T>, m: Machine<T>, t: Token): Outcome<T> {
    if m.size + 1 > cfg.maxSize then Fail(cfg, m, RequestTooLarge)
    else Go(WithToken(m, t).(size := m.size + 1))
  }

  /** Append a byte to the buffer unless it already holds `limit` bytes. */
  function PushChecked<T>(cfg: Config<T>, m: Machine<T>, ch: byte, limit: nat, kind: ErrorKind): Outcome<T> {
    if |m.buf| < limit then Go(m.(buf := m.buf + [ch])) else Fail(cfg, m, kind)
  }

  /** Continue in `s` unless the step already reported something. */
  function Enter<T>(o: Outcome<T>, s: State): Outcome<T> {
    if o.event.Some? then o else Go(o.machine.(state := s))
  }

  function Finish<T>(cfg: Config<T>, m: Machine<T>): Outcome<T> {
    Outcome(Machine(m.buf, EmptyRequest(cfg), cfg.start, 0), Some(Completed(m.request)))
  }

  /** Flush the buffered argument, then push a punctuation token. */
  function Punctuate<T>(cfg: Config<T>, m: Machine<T>, t: Token): Outcome<T> {
    var o := PushArgument(cfg, m, false);
    if o.event.Some? then o else PushToken(cfg, o.machine, t)
  }

  function StepStart<T>(m: Machine<T>, ch: byte): Outcome<T> {
    if IsSpace(ch) then Go(m) else Go(m.(buf := m.buf + [ch], state := Tag))
  }

  function StepTag<T>(cfg: Config<T>, m: Machine<T>, ch: byte): Outcome<T> {
    if ch == SP then
      if m.buf == [] then Go(m)
      else if !cfg.utf8(m.buf) then Fail(cfg, m, TagNotUtf8)
      else Go(m.(buf := [], request := m.request.(tag := m.buf), state := Command(false)))
    else if ch == HT || ch == CR then Go(m)
    else if ch == LF then Fail(cfg, m, MissingCommand)
    else PushChecked(cfg, m, ch, TAG_MAX, TagTooLong)
  }

  function StepCommand<T>(cfg: Config<T>, m: Machine<T>, isUid: bool, ch: byte): Outcome<T> {
    if IsAlnum(ch) then PushChecked(cfg, m, Upper(ch), COMMAND_MAX, CommandTooLong)
    else if IsSpace(ch) then
      if m.buf == [] then Go(m)
      else if UpperAll(m.buf) == UID then Go(m.(buf := [], state := Command(true)))
      else match cfg.parse(m.buf, isUid)
        case None => Fail(cfg, m, UnrecognizedCommand)
        case Some(c) =>
          var m' := m.(buf := [], request := m.request.(command := c));
          if ch == LF then Finish(cfg, m') else Go(m'.(state := Args(SP)))
    else Fail(cfg, m, InvalidCommandChar)
  }

  /** The punctuation token a byte stands for outside quotes, if any. */
  function Punctuation<T>(cfg: Config<T>, c: T, ch: byte): Option<Token> {
    if ch == LPAREN then Some(ParenthesisOpen)
    else if ch == RPAREN then Some(ParenthesisClose)
    else if !cfg.brackets(c) then None
    else if ch == LBRACKET then Some(BracketOpen)
    else if ch == RBRACKET then Some(BracketClose)
    else if ch == LESS then Some(Lt)
    else if ch == GREATER then Some(Gt)
    else if ch == DOT then Some(Dot)
    else None
  }

  function StepArgs<T>(cfg: Config<T>, m: Machine<T>, last: byte, ch: byte): Outcome<T> {
    if ch == DQUOTE && IsSpace(last) then
      Enter(PushArgument(cfg, m, false), Quoted(false))
    else if ch == LBRACE && (IsSpace(last) || (last == TILDE && |m.buf| == 1)) then
      Enter(if last != TILDE then PushArgument(cfg, m, false) else Go(m.(buf := [])), Literal(false))
    else match Punctuation(cfg, m.request.command, ch)
      case Some(t) => Punctuate(cfg, m, t)
      case None =>
        if ch == LF then
          var o := PushArgument(cfg, m, false);
          if o.event.Some? then o else Finish(cfg, o.machine)
        else if IsSpace(ch) then Enter(PushArgument(cfg, m, false), Args(ch))
        else Enter(PushChecked(cfg, m, ch, ARG_MAX_LEN, ArgumentTooLong), Args(ch))
  }

  function StepQuoted<T>(cfg: Config<T>, m: Machine<T>, escaped: bool, ch: byte): Outcome<T> {
    if ch == DQUOTE then
      if !escaped then Enter(PushArgument(cfg, m, true), Args(SP))
      else Enter(PushChecked(cfg, m, ch, ARG_MAX_LEN, QuotedTooLong), Quoted(false))
    else if ch == BACKSLASH then
      Enter(if escaped then PushChecked(cfg, m, ch, ARG_MAX_LEN, QuotedTooLong) else Go(m), Quoted(!escaped))
    else if ch == LF then Fail(cfg, m, UnterminatedQuoted)
    else
      var m' := if escaped then m.(buf := m.buf + [BACKSLASH]) else m;
      Enter(PushChecked(cfg, m', ch, ARG_MAX_LEN, QuotedTooLong), Quoted(false))
  }

  function StepLiteral<T>(cfg: Config<T>, m: Machine<T>, nonSync: bool, ch: byte): Outcome<T> {
    if ch == RBRACE then
      if m.buf == [] then Fail(cfg, m, EmptyLiteral)
      else match ParseU32(m.buf)
        case None => Fail(cfg, m, LiteralSizeInvalid)
        case Some(size) =>
          if m.size + size > cfg.maxSize then Fail(cfg, m, LiteralTooLarge)
          else Go(m.(buf := [], state := LiteralSeek(size, nonSync)))
    else if ch == PLUS then
      if m.buf == [] then Fail(cfg, m, InvalidNonSync) else Go(m.(state := Literal(true)))
    else if IsDigit(ch) then
      if nonSync then Fail(cfg, m, DigitAfterPlus)
      else PushChecked(cfg, m, ch, LITERAL_DIGITS_MAX, TooManyDigits)
    else Fail(cfg, m, InvalidLiteralChar)
  }

  function StepSeek<T>(cfg: Config<T>, m: Machine<T>, size: nat, nonSync: bool, ch: byte): Outcome<T> {
    if ch == LF then
      var o := if size > 0 then Go(m.(state := LiteralData(size)))
               else PushToken(cfg, m.(state := Args(SP)), Nil);
      if o.event.Some? || nonSync then o else Outcome(o.machine, Some(NeedsLiteral(size)))
    else if IsSpace(ch) then Go(m)
    else Fail(cfg, m, MissingCrlf)
  }

  function StepData<T>(cfg: Config<T>, m: Machine<T>, remaining: nat, ch: byte): Outcome<T> {
    var m' := m.(buf := m.buf + [ch]);
    if remaining > 1 then Go(m'.(state := LiteralData(remaining - 1)))
    else Enter(PushArgument(cfg, m', false), Args(SP))
  }

  /** One iteration of the receiver's loop. */
  function Step<T>(cfg: Config<T>, m: Machine<T>, ch: byte): Outcome<T> {
    match m.state
    case Start => StepStart(m, ch)
    case Tag => StepTag(cfg, m, ch)
    case Command(isUid) => StepCommand(cfg, m, isUid, ch)
    case Args(last) => StepArgs(cfg, m, last, ch)
    case Quoted(escaped) => StepQuoted(cfg, m, escaped, ch)
    case Literal(nonSync) => StepLiteral(cfg, m, nonSync, ch)
    case LiteralSeek(size, nonSync) => StepSeek(cfg, m, size, nonSync, ch)
    case LiteralData(remaining) => StepData(cfg, m, remaining, ch)
  }

  datatype Trace<+T> = Trace(machine: Machine<T>, events: seq<Event<T>>)

  /** Everything reported while reading a byte stream, and the machine at its end. */
  function Run<T>(cfg: Config<T>, m: Machine<T>, bytes: seq<byte>): Trace<T>
    decreases |bytes|
  {
    if bytes == [] then Trace(m, [])
    else
      var o := Step(cfg, m, bytes[0]);
      var rest := Run(cfg, o.machine, bytes[1..]);
      Trace(rest.machine, ToSeq(o.event) + rest.events)
  }

  lemma {:induction false} RunAppend<T>(cfg: Config<T>, m: Machine<T>, a: seq<byte>, b: seq<byte>)
    ensures var first := Run(cfg, m, a);
            var second := Run(cfg, first.machine, b);
            Run(cfg, m, a + b) == Trace(second.machine, first.events + second.events)
    decreases |a|
  {
    hide Step;
    if a == [] {
      assert a + b == b;
    } else {
      assert (a + b)[1..] == a[1..] + b;
      RunAppend(cfg, Step(cfg, m, a[0]).machine, a[1..], b);
    }
  }

  lemma RunNone<T>(cfg: Config<T>, m: Machine<T>)
    ensures Run(cfg, m, []) == Trace(m, [])
  {
  }

  lemma RunOne<T>(cfg: Config<T>, m: Machine<T>, ch: byte)
    ensures Run(cfg, m, [ch]) == Trace(Step(cfg, m, ch).machine, ToSeq(Step(cfg, m, ch).event))
  {
    var o := Step(cfg, m, ch);
    assert [ch][1..] == [];
    assert Run(cfg, o.machine, [ch][1..]) == Trace(o.machine, []);
  }

  lemma RunSnoc<T>(cfg: Config<T>, m: Machine<T>, a: seq<byte>, ch: byte)
    ensures var first := Run(cfg, m, a);
            var o := Step(cfg, first.machine, ch);
            Run(cfg, m, a + [ch]) == Trace(o.machine, first.events + ToSeq(o.event))
  {
    hide Step;
    RunAppend(cfg, m, a, [ch]);
    RunOne(cfg, Run(cfg, m, a).machine, ch);
  }
}
