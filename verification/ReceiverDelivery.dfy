/**
 Exactly which requests the receiver can deliver: whatever bytes it is fed, a completed request is one
 that can be printed within the limits, and so read back.
 */
module ReceiverDelivery {
  import opened Basics
  import opened ReceiverModel
  import opened ReceiverSafety
  import opened ReceiverRoundTrip

  ghost predicate GoodTag<T>(cfg: Config<T>, tag: seq<byte>) {
    if cfg.start == Start then PrintableTag(cfg, tag) else tag == []
  }

  ghost predicate NamedBy<T>(cfg: Config<T>, c: T, uid: bool, name: seq<byte>) {
    PrintableName(name) && UpperAll(name) != UID && cfg.parse(UpperAll(name), uid) == Some(c)
  }

  /** The command parser gives the command for some name, with or without `UID`. */
  ghost predicate Named<T>(cfg: Config<T>, c: T) {
    exists uid, name :: NamedBy(cfg, c, uid, name)
  }

  /** An argument that a literal can carry, or a token the command's syntax has. */
  ghost predicate TokenFits<T>(cfg: Config<T>, c: T, t: Token) {
    match t
    case Argument(b) => 0 < |b| < U32_LIMIT
    case Nil => true
    case _ => Punctuation(cfg, c, PunctByte(t)) == Some(t)
  }

  ghost predicate TokensFit<T>(cfg: Config<T>, c: T, tokens: seq<Token>) {
    forall i :: 0 <= i < |tokens| ==> TokenFits(cfg, c, tokens[i])
  }

  ghost predicate Deliverable<T>(cfg: Config<T>, r: Request<T>) {
    GoodTag(cfg, r.tag) && Named(cfg, r.command) && TokensFit(cfg, r.command, r.tokens) && Weight(r.tokens) <= cfg.maxSize
  }

  /** Some byte stream makes a fresh receiver report the request. */
  ghost predicate CanDeliver<T>(cfg: Config<T>, r: Request<T>) {
    exists bytes :: Completed(r) in Run(cfg, Fresh(cfg), bytes).events
  }

  // ---- What is delivered is printable -----------------------------------------------------------

  /** What the machine has of a request whose command is known. */
  ghost predicate Body<T>(cfg: Config<T>, m: Machine<T>) {
    && GoodTag(cfg, m.request.tag) && Named(cfg, m.request.command)
    && TokensFit(cfg, m.request.command, m.request.tokens) && Weight(m.request.tokens) <= m.size
  }

  ghost predicate TagBytes(b: seq<byte>) {
    && (forall i :: 0 <= i < |b| ==> b[i] != SP && b[i] != HT && b[i] != CR && b[i] != LF)
    && (b != [] ==> !IsSpace(b[0]))
  }

  /** What the receiver has read so far is a part of a request that can be printed. */
  ghost predicate Carries<T>(cfg: Config<T>, m: Machine<T>) {
    match m.state
    case Start => true
    case Tag => cfg.start == Start && TagBytes(m.buf)
    case Command(_) => GoodTag(cfg, m.request.tag)
    case LiteralData(n) => Body(cfg, m) && |m.buf| + n < U32_LIMIT
    case _ => Body(cfg, m)
  }

  ghost predicate Delivers<T>(cfg: Config<T>, o: Outcome<T>) {
    && Carries(cfg, o.machine)
    && (o.event.Some? && o.event.value.Completed? ==> Deliverable(cfg, o.event.value.request))
  }

  lemma FreshCarries<T>(cfg: Config<T>)
    requires GoodConfig(cfg)
    ensures Carries(cfg, Fresh(cfg))
  {
  }

  lemma FailDelivers<T>(cfg: Config<T>, m: Machine<T>, kind: ErrorKind)
    requires GoodConfig(cfg)
    ensures Delivers(cfg, Fail(cfg, m, kind))
  {
  }

  lemma TokenIsAdded<T>(cfg: Config<T>, m: Machine<T>, t: Token, n: nat)
    requires Body(cfg, m) && TokenFits(cfg, m.request.command, t)
    requires n >= m.size + if t.Argument? then |t.bytes| else if t.Nil? then 0 else 1
    ensures Body(cfg, WithToken(m, t).(size := n))
  {
    hide Weight, TokenFits, Named, GoodTag;
    WeightOfPush(m.request.tokens, t);
  }

  lemma BodyStays<T>(cfg: Config<T>, m: Machine<T>, buf: seq<byte>, s: State)
    requires Body(cfg, m)
    ensures Body(cfg, m.(buf := buf, state := s))
  {
  }

  lemma PushArgumentBody<T>(cfg: Config<T>, m: Machine<T>, inQuote: bool)
    requires Body(cfg, m) && |m.buf| < U32_LIMIT
    ensures var o := PushArgument(cfg, m, inQuote);
            if o.event.Some? then o.event.value.Rejected? && o.machine == Fresh(cfg) else Body(cfg, o.machine)
  {
    hide Body;
    if m.buf != [] {
      TokenIsAdded(cfg, m, Argument(m.buf), m.size + |m.buf|);
      var pushed := WithToken(m, Argument(m.buf)).(size := m.size + |m.buf|);
      BodyStays(cfg, pushed, [], m.state);
    } else if inQuote {
      TokenIsAdded(cfg, m, Nil, m.size);
      assert WithToken(m, Nil).(size := m.size) == WithToken(m, Nil);
    }
  }

  lemma PushTokenBody<T>(cfg: Config<T>, m: Machine<T>, t: Token)
    requires Body(cfg, m) && !t.Argument? && TokenFits(cfg, m.request.command, t)
    ensures var o := PushToken(cfg, m, t);
            if o.event.Some? then o.event.value.Rejected? && o.machine == Fresh(cfg) else Body(cfg, o.machine)
  {
    hide Body;
    TokenIsAdded(cfg, m, t, m.size + 1);
  }

  lemma PunctuationFits<T>(cfg: Config<T>, c: T, ch: byte)
    requires Punctuation(cfg, c, ch).Some?
    ensures var t := Punctuation(cfg, c, ch).value;
            !t.Argument? && !t.Nil? && TokenFits(cfg, c, t)
  {
  }

  /** A request is finished with what the machine has of it. */
  lemma FinishDelivers<T>(cfg: Config<T>, m: Machine<T>)
    requires GoodConfig(cfg) && Body(cfg, m) && m.size <= cfg.maxSize
    ensures Delivers(cfg, Finish(cfg, m))
  {
  }

  lemma BodyCarries<T>(cfg: Config<T>, m: Machine<T>)
    requires Body(cfg, m) && !m.state.Start? && !m.state.Tag? && !m.state.LiteralData?
    ensures Delivers(cfg, Go(m))
  {
  }

  lemma FreshDelivers<T>(cfg: Config<T>, o: Outcome<T>)
    requires GoodConfig(cfg) && o.machine == Fresh(cfg) && o.event.Some? && o.event.value.Rejected?
    ensures Delivers(cfg, o)
  {
  }

  lemma PunctuateDelivers<T>(cfg: Config<T>, m: Machine<T>, ch: byte)
    requires GoodConfig(cfg) && Body(cfg, m) && |m.buf| < U32_LIMIT && m.state.Args?
    requires Punctuation(cfg, m.request.command, ch).Some?
    ensures Delivers(cfg, Punctuate(cfg, m, Punctuation(cfg, m.request.command, ch).value))
  {
    var t := Punctuation(cfg, m.request.command, ch).value;
    PunctuationFits(cfg, m.request.command, ch);
    PushArgumentBody(cfg, m, false);
    var o := PushArgument(cfg, m, false);
    assert o.event.None? ==> o.machine.state == m.state && o.machine.request.command == m.request.command;
    if o.event.None? {
      PushTokenBody(cfg, o.machine, t);
      var p := PushToken(cfg, o.machine, t);
      assert p.event.None? ==> p.machine.state == m.state && p == Go(p.machine);
      hide PushArgument, PushToken, Body, Delivers, Punctuation;
      if p.event.None? {
        BodyCarries(cfg, p.machine);
      } else {
        FreshDelivers(cfg, p);
      }
    } else {
      FreshDelivers(cfg, o);
    }
  }

  lemma EnterDelivers<T>(cfg: Config<T>, o: Outcome<T>, s: State)
    requires GoodConfig(cfg) && !s.Start? && !s.Tag? && !s.LiteralData?
    requires if o.event.Some? then o.event.value.Rejected? && o.machine == Fresh(cfg) else Body(cfg, o.machine)
    ensures Delivers(cfg, Enter(o, s))
  {
    hide Body;
    if o.event.Some? {
      FreshDelivers(cfg, o);
    } else {
      BodyStays(cfg, o.machine, o.machine.buf, s);
      BodyCarries(cfg, o.machine.(state := s));
    }
  }

  lemma PushCheckedBody<T>(cfg: Config<T>, m: Machine<T>, ch: byte, limit: nat, kind: ErrorKind)
    requires Body(cfg, m)
    ensures var o := PushChecked(cfg, m, ch, limit, kind);
            if o.event.Some? then o.event.value.Rejected? && o.machine == Fresh(cfg) else Body(cfg, o.machine)
  {
    hide Body;
    BodyStays(cfg, m, m.buf + [ch], m.state);
  }

  lemma StepArgsDelivers<T>(cfg: Config<T>, m: Machine<T>, ch: byte)
    requires GoodConfig(cfg) && Inv(cfg, m) && m.state.Args? && Body(cfg, m)
    ensures Delivers(cfg, StepArgs(cfg, m, m.state.lastCh, ch))
  {
    PushArgumentBody(cfg, m, false);
    PushArgumentKeeps(cfg, m, false);
    PushCheckedBody(cfg, m, ch, ARG_MAX_LEN, ArgumentTooLong);
    BodyStays(cfg, m, [], m.state);
    hide Body, Delivers, Enter, PushArgument, PushChecked, Finish, Punctuate, Punctuation, NoEmptyArgument;
    var last, o := m.state.lastCh, PushArgument(cfg, m, false);
    if ch == DQUOTE && IsSpace(last) {
      EnterDelivers(cfg, o, Quoted(false));
    } else if ch == LBRACE && (IsSpace(last) || (last == TILDE && |m.buf| == 1)) {
      EnterDelivers(cfg, if last != TILDE then o else Go(m.(buf := [])), Literal(false));
    } else if Punctuation(cfg, m.request.command, ch).Some? {
      PunctuateDelivers(cfg, m, ch);
    } else if ch == LF {
      if o.event.Some? {
        FreshDelivers(cfg, o);
      } else {
        FinishDelivers(cfg, o.machine);
      }
    } else if IsSpace(ch) {
      EnterDelivers(cfg, o, Args(ch));
    } else {
      EnterDelivers(cfg, PushChecked(cfg, m, ch, ARG_MAX_LEN, ArgumentTooLong), Args(ch));
    }
  }

  lemma StepQuotedDelivers<T>(cfg: Config<T>, m: Machine<T>, ch: byte)
    requires GoodConfig(cfg) && Inv(cfg, m) && m.state.Quoted? && Body(cfg, m)
    ensures Delivers(cfg, StepQuoted(cfg, m, m.state.escaped, ch))
  {
    var escaped := m.state.escaped;
    var m' := if escaped then m.(buf := m.buf + [BACKSLASH]) else m;
    BodyStays(cfg, m, m.buf + [BACKSLASH], m.state);
    PushArgumentBody(cfg, m, true);
    PushCheckedBody(cfg, m, ch, ARG_MAX_LEN, QuotedTooLong);
    PushCheckedBody(cfg, m', ch, ARG_MAX_LEN, QuotedTooLong);
    hide Body, Delivers, Enter, PushArgument, PushChecked, Fail;
    var pushed := PushChecked(cfg, m, ch, ARG_MAX_LEN, QuotedTooLong);
    if ch == DQUOTE && !escaped {
      EnterDelivers(cfg, PushArgument(cfg, m, true), Args(SP));
    } else if ch == DQUOTE {
      EnterDelivers(cfg, pushed, Quoted(false));
    } else if ch == BACKSLASH {
      EnterDelivers(cfg, if escaped then pushed else Go(m), Quoted(!escaped));
    } else if ch == LF {
      FailDelivers(cfg, m, UnterminatedQuoted);
    } else {
      EnterDelivers(cfg, PushChecked(cfg, m', ch, ARG_MAX_LEN, QuotedTooLong), Quoted(false));
    }
  }

  lemma StepLiteralDelivers<T>(cfg: Config<T>, m: Machine<T>, ch: byte)
    requires GoodConfig(cfg) && m.state.Literal? && Body(cfg, m)
    ensures Delivers(cfg, StepLiteral(cfg, m, m.state.nonSync, ch))
  {
    FreshCarries(cfg);
    hide Decimal, ParseU32, GoodTag, Named, TokensFit, Weight;
  }

  lemma PromptDelivers<T>(cfg: Config<T>, o: Outcome<T>)
    requires Carries(cfg, o.machine) && (o.event.None? || o.event.value.NeedsLiteral?)
    ensures Delivers(cfg, o)
  {
  }

  lemma SeekCarries<T>(cfg: Config<T>, m: Machine<T>)
    requires Body(cfg, m) && m.buf == [] && m.state.LiteralSeek? && m.state.size < U32_LIMIT
    ensures Carries(cfg, m) && Carries(cfg, m.(state := LiteralData(m.state.size)))
  {
    hide Body;
    BodyStays(cfg, m, m.buf, LiteralData(m.state.size));
  }

  /** An empty literal gives `Nil`. */
  lemma SeekNilCarries<T>(cfg: Config<T>, m: Machine<T>)
    requires GoodConfig(cfg) && Body(cfg, m)
    ensures var o := PushToken(cfg, m.(state := Args(SP)), Nil);
            if o.event.Some? then o.event.value.Rejected? && o.machine == Fresh(cfg) else Carries(cfg, o.machine)
  {
    hide Body;
    BodyStays(cfg, m, m.buf, Args(SP));
    PushTokenBody(cfg, m.(state := Args(SP)), Nil);
  }

  lemma StepSeekDelivers<T>(cfg: Config<T>, m: Machine<T>, ch: byte)
    requires GoodConfig(cfg) && Inv(cfg, m) && m.state.LiteralSeek? && Body(cfg, m)
    ensures Delivers(cfg, StepSeek(cfg, m, m.state.size, m.state.seekNonSync, ch))
  {
    SeekCarries(cfg, m);
    SeekNilCarries(cfg, m);
    var o := StepSeek(cfg, m, m.state.size, m.state.seekNonSync, ch);
    if o.event.Some? && o.event.value.Rejected? {
      FreshDelivers(cfg, o);
    } else {
      hide Body, Carries, Delivers, PushToken, Fail;
      PromptDelivers(cfg, o);
    }
  }

  lemma StepDataDelivers<T>(cfg: Config<T>, m: Machine<T>, ch: byte)
    requires GoodConfig(cfg) && m.state.LiteralData? && m.state.remaining > 0 && Carries(cfg, m)
    ensures Delivers(cfg, StepData(cfg, m, m.state.remaining, ch))
  {
    var n := m.state.remaining;
    var m' := m.(buf := m.buf + [ch]);
    BodyStays(cfg, m, m.buf + [ch], m.state);
    PushArgumentBody(cfg, m', false);
    hide Body, PushArgument, Enter;
    if n > 1 {
      BodyStays(cfg, m, m.buf + [ch], LiteralData(n - 1));
    } else {
      EnterDelivers(cfg, PushArgument(cfg, m', false), Args(SP));
    }
  }

  /** The command parser is asked about the buffer, which is a printable name. */
  lemma CommandIsNamed<T>(cfg: Config<T>, m: Machine<T>)
    requires Inv(cfg, m) && m.state.Command? && m.buf != [] && UpperAll(m.buf) != UID
    requires cfg.parse(m.buf, m.state.isUid).Some?
    ensures Named(cfg, cfg.parse(m.buf, m.state.isUid).value)
  {
    UpperIsSame(m.buf);
    hide UpperAll;
    assert NamedBy(cfg, cfg.parse(m.buf, m.state.isUid).value, m.state.isUid, m.buf);
  }

  lemma StepCommandDelivers<T>(cfg: Config<T>, m: Machine<T>, ch: byte)
    requires GoodConfig(cfg) && Inv(cfg, m) && m.state.Command? && GoodTag(cfg, m.request.tag)
    ensures Delivers(cfg, StepCommand(cfg, m, m.state.isUid, ch))
  {
    FreshCarries(cfg);
    if m.buf != [] && UpperAll(m.buf) != UID && cfg.parse(m.buf, m.state.isUid).Some? {
      CommandIsNamed(cfg, m);
      var m' := m.(buf := [], request := m.request.(command := cfg.parse(m.buf, m.state.isUid).value));
      assert Body(cfg, m');
      FinishDelivers(cfg, m');
      hide UpperAll, Named, GoodTag;
    } else {
      hide UpperAll, Named, GoodTag;
    }
  }

  lemma StepTagDelivers<T>(cfg: Config<T>, m: Machine<T>, ch: byte)
    requires GoodConfig(cfg) && Inv(cfg, m) && Carries(cfg, m) && m.state.Tag?
    ensures Delivers(cfg, StepTag(cfg, m, ch))
  {
    FreshCarries(cfg);
  }

  lemma StepStartDelivers<T>(cfg: Config<T>, m: Machine<T>, ch: byte)
    requires GoodConfig(cfg) && Inv(cfg, m) && m.state.Start?
    ensures Delivers(cfg, StepStart(m, ch))
  {
  }

  lemma StepDelivers<T>(cfg: Config<T>, m: Machine<T>, ch: byte)
    requires GoodConfig(cfg) && Inv(cfg, m) && Carries(cfg, m)
    ensures Delivers(cfg, Step(cfg, m, ch))
  {
    hide StepArgs, StepQuoted, StepLiteral, StepSeek, StepData, StepCommand, StepTag, StepStart, Delivers, Body, GoodTag;
    match m.state
    case Start => StepStartDelivers(cfg, m, ch);
    case Tag => StepTagDelivers(cfg, m, ch);
    case Command(_) => StepCommandDelivers(cfg, m, ch);
    case Args(_) => StepArgsDelivers(cfg, m, ch);
    case Quoted(_) => StepQuotedDelivers(cfg, m, ch);
    case Literal(_) => StepLiteralDelivers(cfg, m, ch);
    case LiteralSeek(_, _) => StepSeekDelivers(cfg, m, ch);
    case LiteralData(_) => StepDataDelivers(cfg, m, ch);
  }

  /** Whatever bytes are read, every request completed on the way can be printed within the limits. */
  lemma {:induction false} RunDelivers<T>(cfg: Config<T>, m: Machine<T>, bytes: seq<byte>, r: Request<T>)
    requires GoodConfig(cfg) && Inv(cfg, m) && Carries(cfg, m) && Completed(r) in Run(cfg, m, bytes).events
    ensures Deliverable(cfg, r)
    decreases |bytes|
  {
    hide Step, Inv, Carries, Deliverable;
    StepKeeps(cfg, m, bytes[0]);
    StepDelivers(cfg, m, bytes[0]);
    var o := Step(cfg, m, bytes[0]);
    if Completed(r) in Run(cfg, o.machine, bytes[1..]).events {
      RunDelivers(cfg, o.machine, bytes[1..], r);
    }
  }

  // ---- What is printable is delivered -----------------------------------------------------------

  /** Plain syntax for every token: literals that do not wait, and empty quotes, each after a space. */
  function Plain(t: Token): Piece {
    match t
    case Argument(b) => LiteralString(b, false)
    case Nil => QuotedString([])
    case _ => Punct(t)
  }

  function PlainAll(tokens: seq<Token>): seq<Placed> {
    seq(|tokens|, i requires 0 <= i < |tokens| => Placed(true, Plain(tokens[i])))
  }

  lemma {:induction false} SpacedIsLegible(g: Gap, xs: seq<Placed>)
    requires forall i :: 0 <= i < |xs| ==> xs[i].spaced
    ensures Legible(g, xs)
    decreases |xs|
  {
    if xs != [] {
      SpacedIsLegible(Beyond(g, xs[0]), xs[1..]);
    }
  }

  lemma PlainIsPrintable<T>(cfg: Config<T>, c: T, t: Token)
    requires TokenFits(cfg, c, t)
    ensures Printable(cfg, c, Plain(t)) && Value(Plain(t)) == t && Prompts<T>(Plain(t)) == []
    ensures Cost(Plain(t)) == if t.Argument? then |t.bytes| else if t.Nil? then 0 else 1
  {
  }

  lemma {:induction false} CostAppend(a: seq<Placed>, p: Placed)
    ensures TotalCost(a + [p]) == TotalCost(a) + Cost(p.piece)
    ensures Values(a + [p]) == Values(a) + [Value(p.piece)]
    decreases |a|
  {
    hide Cost, Value;
    if a == [] {
      assert a + [p] == [p] && [p][1..] == [];
    } else {
      assert (a + [p])[1..] == a[1..] + [p];
      CostAppend(a[1..], p);
    }
  }

  lemma {:induction false} PromptsAppend<T>(a: seq<Placed>, p: Placed)
    ensures AllPrompts<T>(a + [p]) == AllPrompts<T>(a) + Prompts<T>(p.piece)
    decreases |a|
  {
    hide Prompts;
    if a == [] {
      assert a + [p] == [p] && [p][1..] == [];
    } else {
      assert (a + [p])[1..] == a[1..] + [p];
      PromptsAppend<T>(a[1..], p);
      AppendAssoc(Prompts<T>(a[0].piece), AllPrompts<T>(a[1..]), Prompts<T>(p.piece));
    }
  }

  lemma {:induction false} PlainAllMeans<T>(cfg: Config<T>, c: T, tokens: seq<Token>)
    requires TokensFit(cfg, c, tokens)
    ensures Values(PlainAll(tokens)) == tokens && TotalCost(PlainAll(tokens)) == Weight(tokens)
    ensures AllPrompts<T>(PlainAll(tokens)) == []
    decreases |tokens|
  {
    hide Plain, TokenFits, Value, Cost, Prompts;
    if tokens != [] {
      var front, t := tokens[..|tokens| - 1], tokens[|tokens| - 1];
      assert tokens == front + [t] && PlainAll(tokens) == PlainAll(front) + [Placed(true, Plain(t))];
      PlainAllMeans(cfg, c, front);
      PlainIsPrintable(cfg, c, t);
      CostAppend(PlainAll(front), Placed(true, Plain(t)));
      PromptsAppend<T>(PlainAll(front), Placed(true, Plain(t)));
      WeightOfPush(front, t);
    }
  }

  lemma PlainAllIsPrintable<T>(cfg: Config<T>, c: T, tokens: seq<Token>)
    requires TokensFit(cfg, c, tokens)
    ensures AllPrintable(cfg, c, PlainAll(tokens))
  {
    hide Plain, TokenFits, Printable;
    forall i | 0 <= i < |tokens|
      ensures Printable(cfg, c, PlainAll(tokens)[i].piece)
    {
      PlainIsPrintable(cfg, c, tokens[i]);
    }
  }

  /** A deliverable request, printed plainly, reads back as itself, with nothing to wait for. */
  lemma PrintedIsDelivered<T>(cfg: Config<T>, r: Request<T>) returns (bytes: seq<byte>)
    requires GoodConfig(cfg) && Deliverable(cfg, r)
    ensures Run(cfg, Fresh(cfg), bytes) == Trace(Fresh(cfg), [Completed(r)])
  {
    hide Run, Step, Printable, UpperAll, TotalCost, Values, AllPrompts, Weight;
    var uid, name :| NamedBy(cfg, r.command, uid, name);
    var ps := PlainAll(r.tokens);
    PlainAllMeans(cfg, r.command, r.tokens);
    PlainAllIsPrintable(cfg, r.command, r.tokens);
    SpacedIsLegible(AtName, ps);
    RoundTrip(cfg, r.tag, uid, name, r.command, ps);
    bytes := PrintHead(cfg, r.tag, uid, name) + (PrintAll(cfg, r.command, ps) + [CR, LF]);
  }

  /**
   The receiver can deliver exactly the requests with a tag it accepts, a command the parser knows by
   some name, arguments that are not empty and that a literal can carry, punctuation the command's
   syntax has, and a weight within the maximum. Each of them reads back from its printed form.
   */
  lemma DeliversExactly<T>(cfg: Config<T>, r: Request<T>)
    requires GoodConfig(cfg)
    ensures CanDeliver(cfg, r) <==> Deliverable(cfg, r)
  {
    hide Run, Inv, Carries, Deliverable;
    if CanDeliver(cfg, r) {
      var bytes :| Completed(r) in Run(cfg, Fresh(cfg), bytes).events;
      FreshInv(cfg);
      FreshCarries(cfg);
      RunDelivers(cfg, Fresh(cfg), bytes, r);
    }
    if Deliverable(cfg, r) {
      var bytes := PrintedIsDelivered(cfg, r);
      assert Completed(r) in Run(cfg, Fresh(cfg), bytes).events;
    }
  }

  /** Any request read from any bytes is read again, alone, from its printed form. */
  lemma ReadsBack<T>(cfg: Config<T>, bytes: seq<byte>, r: Request<T>) returns (printed: seq<byte>)
    requires GoodConfig(cfg) && Completed(r) in Run(cfg, Fresh(cfg), bytes).events
    ensures Run(cfg, Fresh(cfg), printed) == Trace(Fresh(cfg), [Completed(r)])
  {
    hide Run, Deliverable;
    assert CanDeliver(cfg, r);
    DeliversExactly(cfg, r);
    printed := PrintedIsDelivered(cfg, r);
  }
}
