/** What every step of the receiver keeps, and what that gives for whole runs. */
module ReceiverSafety {
  import opened Basics
  import opened ReceiverModel

  function ArgumentBytes(tokens: seq<Token>): nat {
    if tokens == [] then 0
    else
      var t := tokens[|tokens| - 1];
      ArgumentBytes(tokens[..|tokens| - 1]) + if t.Argument? then |t.bytes| else 0
  }

  function PunctuationCount(tokens: seq<Token>): nat {
    if tokens == [] then 0
    else
      var t := tokens[|tokens| - 1];
      PunctuationCount(tokens[..|tokens| - 1]) + if t.Argument? || t.Nil? then 0 else 1
  }

  /** What a list of tokens weighs: argument bytes, plus one for each punctuation token. */
  function Weight(tokens: seq<Token>): nat {
    ArgumentBytes(tokens) + PunctuationCount(tokens)
  }

  /** The start states a receiver is built with: IMAP reads a tag first, ManageSieve does not. */
  ghost predicate GoodConfig<T>(cfg: Config<T>) {
    cfg.start == Start || cfg.start == Command(false)
  }

  /** The shape of the buffer and the counted size in each state. */
  ghost predicate StateInv<T>(cfg: Config<T>, m: Machine<T>) {
    match m.state
    case Start => m == Fresh(cfg)
    case Tag => 0 < |m.buf| <= TAG_MAX && m.request == EmptyRequest(cfg) && m.size == 0
    case Command(_) =>
      && |m.buf| <= COMMAND_MAX
      && (forall i :: 0 <= i < |m.buf| ==> IsAlnum(m.buf[i]) && Upper(m.buf[i]) == m.buf[i])
      && m.request.command == cfg.default && m.request.tokens == [] && m.size == 0
    case Args(last) =>
      && |m.buf| <= ARG_MAX_LEN
      && (IsSpace(last) ==> m.buf == [])
      && (m.buf != [] ==> m.buf[|m.buf| - 1] == last)
    case Quoted(_) => |m.buf| <= ARG_MAX_LEN
    case Literal(nonSync) =>
      && |m.buf| <= LITERAL_DIGITS_MAX
      && (forall i :: 0 <= i < |m.buf| ==> IsDigit(m.buf[i]))
      && (nonSync ==> m.buf != [])
    case LiteralSeek(size, _) => m.buf == [] && m.size + size <= cfg.maxSize && size < U32_LIMIT
    case LiteralData(remaining) =>
      0 < remaining < U32_LIMIT && m.size + |m.buf| + remaining <= cfg.maxSize
  }

  ghost predicate Inv<T>(cfg: Config<T>, m: Machine<T>) {
    && m.size <= cfg.maxSize
    && |m.request.tag| <= TAG_MAX
    && StateInv(cfg, m)
    && NoEmptyArgument(m.request.tokens)
  }

  lemma WeightOfPush(tokens: seq<Token>, t: Token)
    ensures Weight(tokens + [t]) == Weight(tokens) + if t.Argument? then |t.bytes| else if t.Nil? then 0 else 1
  {
    assert (tokens + [t])[..|tokens|] == tokens;
  }

  lemma FreshInv<T>(cfg: Config<T>)
    requires GoodConfig(cfg)
    ensures Inv(cfg, Fresh(cfg))
  {
  }

  ghost predicate NoEmptyArgument(tokens: seq<Token>) {
    forall i :: 0 <= i < |tokens| ==> tokens[i] != Argument([])
  }

  /** The part of `Inv` that does not look at the state. */
  ghost predicate Core<T>(cfg: Config<T>, m: Machine<T>) {
    m.size <= cfg.maxSize && |m.request.tag| <= TAG_MAX && NoEmptyArgument(m.request.tokens)
  }

  lemma PushArgumentKeeps<T>(cfg: Config<T>, m: Machine<T>, inQuote: bool)
    requires Core(cfg, m) && GoodConfig(cfg)
    ensures var o := PushArgument(cfg, m, inQuote);
            && (o.event.Some? ==> o.machine == Fresh(cfg))
            && (o.event.None? ==> Core(cfg, o.machine) && o.machine.buf == [] && o.machine.state == m.state)
  {
  }

  lemma PushTokenKeeps<T>(cfg: Config<T>, m: Machine<T>, t: Token)
    requires Core(cfg, m) && GoodConfig(cfg) && !t.Argument?
    ensures var o := PushToken(cfg, m, t);
            && (o.event.Some? ==> o.machine == Fresh(cfg))
            && (o.event.None? ==> Core(cfg, o.machine) && o.machine.buf == m.buf && o.machine.state == m.state)
  {
  }

  /** A step that completed or rejected a request left the receiver as it was created. */
  ghost predicate Keeps<T>(cfg: Config<T>, o: Outcome<T>) {
    && Inv(cfg, o.machine)
    && (o.event.Some? && !o.event.value.NeedsLiteral? ==> o.machine == Fresh(cfg))
  }

  lemma StepArgsKeeps<T>(cfg: Config<T>, m: Machine<T>, ch: byte)
    requires GoodConfig(cfg) && Inv(cfg, m) && m.state.Args?
    ensures Keeps(cfg, StepArgs(cfg, m, m.state.lastCh, ch))
  {
    FreshInv(cfg);
    PushArgumentKeeps(cfg, m, false);
    hide PushArgument, PushToken;
    var o := PushArgument(cfg, m, false);
    var p := Punctuation(cfg, m.request.command, ch);
    if o.event.None? && p.Some? {
      PushTokenKeeps(cfg, o.machine, p.value);
    }
  }

  lemma StepQuotedKeeps<T>(cfg: Config<T>, m: Machine<T>, ch: byte)
    requires GoodConfig(cfg) && Inv(cfg, m) && m.state.Quoted?
    ensures Keeps(cfg, StepQuoted(cfg, m, m.state.escaped, ch))
  {
    FreshInv(cfg);
    PushArgumentKeeps(cfg, m, true);
  }

  lemma StepLiteralKeeps<T>(cfg: Config<T>, m: Machine<T>, ch: byte)
    requires GoodConfig(cfg) && Inv(cfg, m)
    requires m.state.Literal?
    ensures Keeps(cfg, StepLiteral(cfg, m, m.state.nonSync, ch))
  {
    hide Decimal;
    FreshInv(cfg);
  }

  lemma StepSeekKeeps<T>(cfg: Config<T>, m: Machine<T>, ch: byte)
    requires GoodConfig(cfg) && Inv(cfg, m)
    requires m.state.LiteralSeek?
    ensures Keeps(cfg, StepSeek(cfg, m, m.state.size, m.state.seekNonSync, ch))
  {
    FreshInv(cfg);
    PushTokenKeeps(cfg, m.(state := Args(SP)), Nil);
    hide PushToken;
  }

  lemma StepDataKeeps<T>(cfg: Config<T>, m: Machine<T>, ch: byte)
    requires GoodConfig(cfg) && Inv(cfg, m) && m.state.LiteralData?
    ensures Keeps(cfg, StepData(cfg, m, m.state.remaining, ch))
    ensures StepData(cfg, m, m.state.remaining, ch).event.None?
  {
    FreshInv(cfg);
    PushArgumentKeeps(cfg, m.(buf := m.buf + [ch]), false);
  }

  lemma StepHeadKeeps<T>(cfg: Config<T>, m: Machine<T>, ch: byte)
    requires GoodConfig(cfg) && Inv(cfg, m)
    requires m.state.Start? || m.state.Tag? || m.state.Command?
    ensures Keeps(cfg, Step(cfg, m, ch))
  {
    FreshInv(cfg);
  }

  /**
   Every byte, whatever it is, keeps the size, tag, command and buffer limits; and after a
   completed or rejected request the receiver is the one it started as.
   */
  lemma StepKeeps<T>(cfg: Config<T>, m: Machine<T>, ch: byte)
    requires GoodConfig(cfg) && Inv(cfg, m)
    ensures Keeps(cfg, Step(cfg, m, ch))
  {
    hide StepArgs, StepQuoted, StepLiteral, StepSeek, StepData, StepCommand, StepTag, StepStart, Keeps, Inv;
    match m.state
    case Start => StepHeadKeeps(cfg, m, ch);
    case Tag => StepHeadKeeps(cfg, m, ch);
    case Command(_) => StepHeadKeeps(cfg, m, ch);
    case Args(_) => StepArgsKeeps(cfg, m, ch);
    case Quoted(_) => StepQuotedKeeps(cfg, m, ch);
    case Literal(_) => StepLiteralKeeps(cfg, m, ch);
    case LiteralSeek(_, _) => StepSeekKeeps(cfg, m, ch);
    case LiteralData(_) => StepDataKeeps(cfg, m, ch);
  }

  lemma {:induction false} RunKeeps<T>(cfg: Config<T>, m: Machine<T>, bytes: seq<byte>)
    requires GoodConfig(cfg) && Inv(cfg, m)
    ensures Inv(cfg, Run(cfg, m, bytes).machine)
    decreases |bytes|
  {
    hide Step, Inv;
    if bytes != [] {
      StepKeeps(cfg, m, bytes[0]);
      RunKeeps(cfg, Step(cfg, m, bytes[0]).machine, bytes[1..]);
    }
  }

  /** The number of empty literals counted so far, after a byte read in `m` with report `e`. */
  ghost function NextLedger<T>(m: Machine<T>, n: nat, ch: byte, e: Option<Event<T>>): nat {
    if e.Some? && !e.value.NeedsLiteral? then 0
    else if m.state.LiteralSeek? && m.state.size == 0 && ch == LF then n + 1
    else n
  }

  /** The number of `{0}` literals seen in the request being read at the end of the stream. */
  ghost function Ledger<T>(cfg: Config<T>, m: Machine<T>, n: nat, bytes: seq<byte>): nat
    decreases |bytes|
  {
    if bytes == [] then n
    else
      var o := Step(cfg, m, bytes[0]);
      Ledger(cfg, o.machine, NextLedger(m, n, bytes[0], o.event), bytes[1..])
  }

  /** The counted size is the weight of the tokens, plus `n` empty literals. */
  ghost predicate Weighs<T>(m: Machine<T>, n: nat) {
    m.size == Weight(m.request.tokens) + n
  }

  /** After a report the receiver weighs nothing; otherwise it weighs as `n` says. */
  ghost predicate OutcomeWeighs<T>(o: Outcome<T>, n: nat) {
    Weighs(o.machine, if o.event.Some? then 0 else n)
  }

  lemma PushArgumentWeighs<T>(cfg: Config<T>, m: Machine<T>, n: nat, inQuote: bool)
    requires Weighs(m, n)
    ensures OutcomeWeighs(PushArgument(cfg, m, inQuote), n)
  {
    WeightOfPush(m.request.tokens, Argument(m.buf));
    WeightOfPush(m.request.tokens, Nil);
  }

  lemma PushTokenWeighs<T>(cfg: Config<T>, m: Machine<T>, n: nat, t: Token)
    requires Weighs(m, n) && !t.Argument?
    ensures OutcomeWeighs(PushToken(cfg, m, t), if t.Nil? then n + 1 else n)
  {
    WeightOfPush(m.request.tokens, t);
  }

  lemma PushCheckedWeighs<T>(cfg: Config<T>, m: Machine<T>, n: nat, ch: byte, limit: nat, kind: ErrorKind)
    requires Weighs(m, n)
    ensures OutcomeWeighs(PushChecked(cfg, m, ch, limit, kind), n)
  {
  }

  lemma EnterWeighs<T>(o: Outcome<T>, s: State, n: nat)
    requires OutcomeWeighs(o, n)
    ensures OutcomeWeighs(Enter(o, s), n)
  {
    hide Weight;
  }

  lemma PunctuateWeighs<T>(cfg: Config<T>, m: Machine<T>, n: nat, t: Token)
    requires Weighs(m, n) && !t.Argument? && !t.Nil?
    ensures OutcomeWeighs(Punctuate(cfg, m, t), n)
  {
    PushArgumentWeighs(cfg, m, n, false);
    var o := PushArgument(cfg, m, false);
    if o.event.None? {
      PushTokenWeighs(cfg, o.machine, n, t);
    }
    hide PushArgument, PushToken, Weighs;
  }

  lemma StepArgsWeighs<T>(cfg: Config<T>, m: Machine<T>, n: nat, ch: byte)
    requires m.state.Args? && Weighs(m, n)
    ensures OutcomeWeighs(StepArgs(cfg, m, m.state.lastCh, ch), n)
  {
    hide PushArgument, PushChecked, OutcomeWeighs, Weighs, Weight, Enter, Finish, Punctuate;
    GoWeighs(m, [], n);
    PushArgumentWeighs(cfg, m, n, false);
    var o := PushArgument(cfg, m, false);
    FinishWeighs(cfg, o.machine, n);
    var last := m.state.lastCh;
    if ch == DQUOTE && IsSpace(last) {
      EnterWeighs(o, Quoted(false), n);
    } else if ch == LBRACE && (IsSpace(last) || (last == TILDE && |m.buf| == 1)) {
      EnterWeighs(if last != TILDE then o else Go(m.(buf := [])), Literal(false), n);
    } else {
      match Punctuation(cfg, m.request.command, ch)
      case Some(t) =>
        PunctuateWeighs(cfg, m, n, t);
      case None =>
        PushCheckedWeighs(cfg, m, n, ch, ARG_MAX_LEN, ArgumentTooLong);
        EnterWeighs(o, Args(ch), n);
        EnterWeighs(PushChecked(cfg, m, ch, ARG_MAX_LEN, ArgumentTooLong), Args(ch), n);
    }
  }

  lemma StepQuotedWeighs<T>(cfg: Config<T>, m: Machine<T>, n: nat, ch: byte)
    requires m.state.Quoted? && Weighs(m, n)
    ensures OutcomeWeighs(StepQuoted(cfg, m, m.state.escaped, ch), n)
  {
    hide PushArgument, PushChecked, OutcomeWeighs, Weighs, Weight, Enter, Fail;
    GoWeighs(m, m.buf, n);
    GoWeighs(m, m.buf + [BACKSLASH], n);
    var escaped := m.state.escaped;
    PushCheckedWeighs(cfg, m, n, ch, ARG_MAX_LEN, QuotedTooLong);
    var pushed := PushChecked(cfg, m, ch, ARG_MAX_LEN, QuotedTooLong);
    if ch == DQUOTE && !escaped {
      PushArgumentWeighs(cfg, m, n, true);
      EnterWeighs(PushArgument(cfg, m, true), Args(SP), n);
    } else if ch == DQUOTE {
      EnterWeighs(pushed, Quoted(false), n);
    } else if ch == BACKSLASH {
      EnterWeighs(if escaped then pushed else Go(m), Quoted(!escaped), n);
    } else if ch == LF {
      FailWeighs(cfg, m, UnterminatedQuoted, n);
    } else {
      var m' := if escaped then m.(buf := m.buf + [BACKSLASH]) else m;
      PushCheckedWeighs(cfg, m', n, ch, ARG_MAX_LEN, QuotedTooLong);
      EnterWeighs(PushChecked(cfg, m', ch, ARG_MAX_LEN, QuotedTooLong), Quoted(false), n);
    }
  }

  lemma GoWeighs<T>(m: Machine<T>, buf: seq<byte>, n: nat)
    requires Weighs(m, n)
    ensures OutcomeWeighs(Go(m.(buf := buf)), n) && Weighs(m.(buf := buf), n)
  {
  }

  lemma FinishWeighs<T>(cfg: Config<T>, m: Machine<T>, n: nat)
    ensures OutcomeWeighs(Finish(cfg, m), n)
  {
  }

  lemma FailWeighs<T>(cfg: Config<T>, m: Machine<T>, kind: ErrorKind, n: nat)
    ensures OutcomeWeighs(Fail(cfg, m, kind), n)
  {
  }

  lemma StepLiteralWeighs<T>(cfg: Config<T>, m: Machine<T>, n: nat, ch: byte)
    requires m.state.Literal? && Weighs(m, n)
    ensures OutcomeWeighs(StepLiteral(cfg, m, m.state.nonSync, ch), n)
  {
    assert Weighs(Fresh(cfg), 0);
    hide Decimal, ParseU32, Weight;
  }

  lemma StepHeadWeighs<T>(cfg: Config<T>, m: Machine<T>, n: nat, ch: byte)
    requires m.state.Start? || m.state.Tag? || m.state.Command?
    requires GoodConfig(cfg) && Inv(cfg, m) && Weighs(m, n)
    ensures OutcomeWeighs(Step(cfg, m, ch), n)
  {
    assert Weighs(Fresh(cfg), 0);
    hide Weight;
  }

  lemma StepSeekWeighs<T>(cfg: Config<T>, m: Machine<T>, n: nat, ch: byte)
    requires m.state.LiteralSeek? && Weighs(m, n)
    ensures var o := StepSeek(cfg, m, m.state.size, m.state.seekNonSync, ch);
            Weighs(o.machine, NextLedger(m, n, ch, o.event))
  {
    hide Weighs, Weight;
    FailWeighs(cfg, m, MissingCrlf, n);
    StateWeighs(m, LiteralData(m.state.size), n);
    StateWeighs(m, Args(SP), n);
    PushTokenWeighs(cfg, m.(state := Args(SP)), n, Nil);
  }

  lemma StateWeighs<T>(m: Machine<T>, s: State, n: nat)
    requires Weighs(m, n)
    ensures Weighs(m.(state := s), n)
  {
  }

  lemma StepDataWeighs<T>(cfg: Config<T>, m: Machine<T>, n: nat, ch: byte)
    requires m.state.LiteralData? && Weighs(m, n)
    ensures OutcomeWeighs(StepData(cfg, m, m.state.remaining, ch), n)
  {
    PushArgumentWeighs(cfg, m.(buf := m.buf + [ch]), n, false);
    hide Weight, PushArgument;
  }

  lemma StepWeighs<T>(cfg: Config<T>, m: Machine<T>, n: nat, ch: byte)
    requires GoodConfig(cfg) && Inv(cfg, m) && Weighs(m, n)
    ensures var o := Step(cfg, m, ch);
            Weighs(o.machine, NextLedger(m, n, ch, o.event))
  {
    hide StepStart, StepTag, StepCommand, StepArgs, StepQuoted, StepLiteral, StepSeek, StepData, Weighs, Inv;
    if m.state.LiteralSeek? {
      StepSeekWeighs(cfg, m, n, ch);
    } else {
      OnlySeekPrompts(cfg, m, ch);
      match m.state
      case Start => StepHeadWeighs(cfg, m, n, ch);
      case Tag => StepHeadWeighs(cfg, m, n, ch);
      case Command(_) => StepHeadWeighs(cfg, m, n, ch);
      case Args(_) => StepArgsWeighs(cfg, m, n, ch);
      case Quoted(_) => StepQuotedWeighs(cfg, m, n, ch);
      case Literal(_) => StepLiteralWeighs(cfg, m, n, ch);
      case LiteralData(_) => StepDataWeighs(cfg, m, n, ch);
    }
  }

  lemma OnlySeekPrompts<T>(cfg: Config<T>, m: Machine<T>, ch: byte)
    requires !m.state.LiteralSeek?
    ensures var o := Step(cfg, m, ch);
            o.event.Some? ==> !o.event.value.NeedsLiteral?
  {
    hide Decimal;
  }

  lemma {:induction false} RunWeighs<T>(cfg: Config<T>, m: Machine<T>, n: nat, bytes: seq<byte>)
    requires GoodConfig(cfg) && Inv(cfg, m) && Weighs(m, n)
    ensures Weighs(Run(cfg, m, bytes).machine, Ledger(cfg, m, n, bytes))
    decreases |bytes|
  {
    hide Step, NextLedger, Inv, Weighs;
    if bytes != [] {
      StepKeeps(cfg, m, bytes[0]);
      StepWeighs(cfg, m, n, bytes[0]);
      var o := Step(cfg, m, bytes[0]);
      RunWeighs(cfg, o.machine, NextLedger(m, n, bytes[0], o.event), bytes[1..]);
    }
  }

  /**
   In every state a receiver can reach, the limits hold and the counted size is exactly the
   argument bytes kept, plus one for each punctuation token, plus one for each `{0}` literal
   of the request being read (empty quotes also give `Nil`, but are not counted).
   */
  lemma ReachableSizeIsExact<T>(cfg: Config<T>, bytes: seq<byte>)
    requires GoodConfig(cfg)
    ensures var end := Run(cfg, Fresh(cfg), bytes).machine;
            && Inv(cfg, end)
            && end.size == Weight(end.request.tokens) + Ledger(cfg, Fresh(cfg), 0, bytes)
            && end.size <= cfg.maxSize
  {
    FreshInv(cfg);
    RunKeeps(cfg, Fresh(cfg), bytes);
    RunWeighs(cfg, Fresh(cfg), 0, bytes);
  }

  /** The remaining bytes of a literal become one argument, whatever they are. */
  lemma {:induction false} DataIsTaken<T>(cfg: Config<T>, m: Machine<T>, data: seq<byte>)
    requires StateInv(cfg, m) && m.state == LiteralData(|data|)
    ensures Run(cfg, m, data)
         == Trace(WithToken(m, Argument(m.buf + data)).(buf := [], size := m.size + |m.buf| + |data|, state := Args(SP)), [])
    decreases |data|
  {
    var m' := Step(cfg, m, data[0]).machine;
    if |data| == 1 {
      assert data[1..] == [] && data == [data[0]];
      RunOne(cfg, m, data[0]);
    } else {
      DataIsTaken(cfg, m', data[1..]);
      assert m.buf + data == m'.buf + data[1..];
    }
  }

  /**
   Once a non-empty literal size is accepted, its next `size` bytes after the line end become
   exactly one argument: no byte of it is interpreted, and no size error can occur.
   */
  lemma AcceptedLiteralIsTaken<T>(cfg: Config<T>, m: Machine<T>, data: seq<byte>)
    requires StateInv(cfg, m) && m.state.LiteralSeek? && 0 < m.state.size == |data|
    ensures Run(cfg, m, [LF] + data)
         == Trace(WithToken(m, Argument(data)).(size := m.size + |data|, state := Args(SP)),
                  if m.state.seekNonSync then [] else [NeedsLiteral(|data|)])
  {
    var m' := Step(cfg, m, LF).machine;
    assert m' == m.(state := LiteralData(|data|));
    RunOne(cfg, m, LF);
    RunAppend(cfg, m, [LF], data);
    DataIsTaken(cfg, m', data);
    assert m'.buf + data == data;
  }
}
