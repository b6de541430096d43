/**
 The receiver as an object: fields updated byte by byte, restartable at any point of the stream.
 Every method is proved against the step function of `ReceiverModel`.
 */
module Receiver {
  import opened Basics
  import opened ReceiverModel
  import Safety = ReceiverSafety

  function Concat(frames: seq<seq<byte>>): seq<byte> {
    if frames == [] then [] else frames[0] + Concat(frames[1..])
  }

  lemma {:induction false} ConcatSnoc(frames: seq<seq<byte>>, f: seq<byte>)
    ensures Concat(frames + [f]) == Concat(frames) + f
  {
    if frames == [] {
      assert [f][1..] == [];
    } else {
      assert (frames + [f])[1..] == frames[1..] + [f];
      ConcatSnoc(frames[1..], f);
    }
  }

  class Receiver<T> {
    const cfg: Config<T>
    var buf: seq<byte>
    var request: Request<T>
    var state: State
    var size: nat

    ghost function View(): Machine<T>
      reads this
    {
      Machine(buf, request, state, size)
    }

    /** The limits of a receiver with one of the two start states that exist. */
    ghost predicate Valid()
      reads this
    {
      Safety.GoodConfig(cfg) && Safety.Inv(cfg, View())
    }

    constructor (cfg: Config<T>)
      ensures this.cfg == cfg && View() == Fresh(cfg) && (Safety.GoodConfig(cfg) ==> Valid())
    {
      this.cfg := cfg;
      buf, request, state, size := [], EmptyRequest(cfg), cfg.start, 0;
      new;
      if Safety.GoodConfig(cfg) {
        Safety.FreshInv(cfg);
      }
    }

    method ErrorReset(kind: ErrorKind) returns (e: Option<Event<T>>)
      modifies this
      ensures Outcome(View(), e) == Fail(cfg, old(View()), kind)
    {
      var tag := request.tag;
      e := Some(Rejected(if tag != [] then Some(tag) else None, kind));
      request := EmptyRequest(cfg);
      buf := [];
      state := cfg.start;
      size := 0;
    }

    method PushArgument(inQuote: bool) returns (e: Option<Event<T>>)
      modifies this
      ensures Outcome(View(), e) == ReceiverModel.PushArgument(cfg, old(View()), inQuote)
    {
      e := None;
      if buf != [] {
        if size + |buf| > cfg.maxSize {
          e := ErrorReset(RequestTooLarge);
          return;
        }
        size := size + |buf|;
        request := request.(tokens := request.tokens + [Argument(buf)]);
        buf := [];
      } else if inQuote {
        request := request.(tokens := request.tokens + [Nil]);
      }
    }

    method PushToken(t: Token) returns (e: Option<Event<T>>)
      modifies this
      ensures Outcome(View(), e) == ReceiverModel.PushToken(cfg, old(View()), t)
    {
      e := None;
      if size + 1 > cfg.maxSize {
        e := ErrorReset(RequestTooLarge);
        return;
      }
      size := size + 1;
      request := request.(tokens := request.tokens + [t]);
    }

    method PushChecked(ch: byte, limit: nat, kind: ErrorKind) returns (e: Option<Event<T>>)
      modifies this
      ensures Outcome(View(), e) == ReceiverModel.PushChecked(cfg, old(View()), ch, limit, kind)
    {
      e := None;
      if |buf| < limit {
        buf := buf + [ch];
      } else {
        e := ErrorReset(kind);
      }
    }

    /** Hand the finished request over and start on the next one. */
    method TakeRequest() returns (e: Option<Event<T>>)
      modifies this
      ensures Outcome(View(), e) == Finish(cfg, old(View()))
    {
      e := Some(Completed(request));
      state := cfg.start;
      size := 0;
      request := EmptyRequest(cfg);
    }

    method ConsumeTag(ch: byte) returns (e: Option<Event<T>>)
      modifies this
      ensures Outcome(View(), e) == StepTag(cfg, old(View()), ch)
    {
      e := None;
      if ch == SP {
        if buf != [] {
          if cfg.utf8(buf) {
            request := request.(tag := buf);
            buf := [];
            state := Command(false);
          } else {
            e := ErrorReset(TagNotUtf8);
          }
        }
      } else if ch == HT || ch == CR {
      } else if ch == LF {
        e := ErrorReset(MissingCommand);
      } else {
        e := PushChecked(ch, TAG_MAX, TagTooLong);
      }
    }

    method ConsumeCommand(isUid: bool, ch: byte) returns (e: Option<Event<T>>)
      modifies this
      ensures Outcome(View(), e) == StepCommand(cfg, old(View()), isUid, ch)
    {
      e := None;
      if IsAlnum(ch) {
        e := PushChecked(Upper(ch), COMMAND_MAX, CommandTooLong);
      } else if IsSpace(ch) {
        if buf != [] {
          if UpperAll(buf) != UID {
            match cfg.parse(buf, isUid) {
              case None =>
                e := ErrorReset(UnrecognizedCommand);
              case Some(command) =>
                request := request.(command := command);
                buf := [];
                if ch != LF {
                  state := Args(SP);
                } else {
                  e := TakeRequest();
                }
            }
          } else {
            buf := [];
            state := Command(true);
          }
        }
      } else {
        e := ErrorReset(InvalidCommandChar);
      }
    }

    method ConsumePunctuation(t: Token) returns (e: Option<Event<T>>)
      modifies this
      ensures Outcome(View(), e) == Punctuate(cfg, old(View()), t)
    {
      e := PushArgument(false);
      if e.None? {
        e := PushToken(t);
      }
    }

    method ConsumeArgs(last: byte, ch: byte) returns (e: Option<Event<T>>)
      modifies this
      ensures Outcome(View(), e) == StepArgs(cfg, old(View()), last, ch)
    {
      hide ReceiverModel.PushArgument, ReceiverModel.PushChecked, Punctuate;
      e := None;
      if ch == DQUOTE && IsSpace(last) {
        e := PushArgument(false);
        if e.None? { state := Quoted(false); }
      } else if ch == LBRACE && (IsSpace(last) || (last == TILDE && |buf| == 1)) {
        if last != TILDE {
          e := PushArgument(false);
        } else {
          buf := [];
        }
        if e.None? { state := Literal(false); }
      } else {
        match Punctuation(cfg, request.command, ch) {
          case Some(t) =>
            e := ConsumePunctuation(t);
          case None =>
            if ch == LF {
              e := PushArgument(false);
              if e.None? { e := TakeRequest(); }
            } else if IsSpace(ch) {
              e := PushArgument(false);
              if e.None? { state := Args(ch); }
            } else {
              e := PushChecked(ch, ARG_MAX_LEN, ArgumentTooLong);
              if e.None? { state := Args(ch); }
            }
        }
      }
    }

    method ConsumeQuoted(escaped: bool, ch: byte) returns (e: Option<Event<T>>)
      modifies this
      ensures Outcome(View(), e) == StepQuoted(cfg, old(View()), escaped, ch)
    {
      hide ReceiverModel.PushArgument, ReceiverModel.PushChecked;
      e := None;
      if ch == DQUOTE {
        if !escaped {
          e := PushArgument(true);
          if e.None? { state := Args(SP); }
        } else {
          e := PushChecked(ch, ARG_MAX_LEN, QuotedTooLong);
          if e.None? { state := Quoted(false); }
        }
      } else if ch == BACKSLASH {
        if escaped {
          e := PushChecked(ch, ARG_MAX_LEN, QuotedTooLong);
        }
        if e.None? { state := Quoted(!escaped); }
      } else if ch == LF {
        e := ErrorReset(UnterminatedQuoted);
      } else {
        if escaped {
          buf := buf + [BACKSLASH];
        }
        e := PushChecked(ch, ARG_MAX_LEN, QuotedTooLong);
        if e.None? { state := Quoted(false); }
      }
    }

    method ConsumeLiteral(nonSync: bool, ch: byte) returns (e: Option<Event<T>>)
      modifies this
      ensures Outcome(View(), e) == StepLiteral(cfg, old(View()), nonSync, ch)
    {
      e := None;
      if ch == RBRACE {
        if buf != [] {
          match ParseU32(buf) {
            case None =>
              e := ErrorReset(LiteralSizeInvalid);
            case Some(n) =>
              if size + n > cfg.maxSize {
                e := ErrorReset(LiteralTooLarge);
                return;
              }
              state := LiteralSeek(n, nonSync);
              buf := [];
          }
        } else {
          e := ErrorReset(EmptyLiteral);
        }
      } else if ch == PLUS {
        if buf != [] {
          state := Literal(true);
        } else {
          e := ErrorReset(InvalidNonSync);
        }
      } else if IsDigit(ch) {
        if !nonSync {
          e := PushChecked(ch, LITERAL_DIGITS_MAX, TooManyDigits);
        } else {
          e := ErrorReset(DigitAfterPlus);
        }
      } else {
        e := ErrorReset(InvalidLiteralChar);
      }
    }

    method ConsumeSeek(n: nat, nonSync: bool, ch: byte) returns (e: Option<Event<T>>)
      modifies this
      ensures Outcome(View(), e) == StepSeek(cfg, old(View()), n, nonSync, ch)
    {
      e := None;
      if ch == LF {
        if n > 0 {
          state := LiteralData(n);
        } else {
          state := Args(SP);
          e := PushToken(Nil);
        }
        if e.None? && !nonSync {
          e := Some(NeedsLiteral(n));
        }
      } else if !IsSpace(ch) {
        e := ErrorReset(MissingCrlf);
      }
    }

    method ConsumeData(remaining: nat, ch: byte) returns (e: Option<Event<T>>)
      modifies this
      ensures Outcome(View(), e) == StepData(cfg, old(View()), remaining, ch)
    {
      e := None;
      buf := buf + [ch];
      if remaining > 1 {
        state := LiteralData(remaining - 1);
      } else {
        e := PushArgument(false);
        if e.None? { state := Args(SP); }
      }
    }

    /** The body of the loop. */
    method Consume(ch: byte) returns (e: Option<Event<T>>)
      modifies this
      ensures Outcome(View(), e) == Step(cfg, old(View()), ch)
    {
      match state {
        case Start =>
          e := None;
          if !IsSpace(ch) {
            buf := buf + [ch];
            state := Tag;
          }
        case Tag => e := ConsumeTag(ch);
        case Command(isUid) => e := ConsumeCommand(isUid, ch);
        case Args(last) => e := ConsumeArgs(last, ch);
        case Quoted(escaped) => e := ConsumeQuoted(escaped, ch);
        case Literal(nonSync) => e := ConsumeLiteral(nonSync, ch);
        case LiteralSeek(n, nonSync) => e := ConsumeSeek(n, nonSync, ch);
        case LiteralData(remaining) => e := ConsumeData(remaining, ch);
      }
    }

    /** One turn of the loop keeps the limits, and a completed or rejected request leaves a fresh receiver. */
    method ConsumeValid(ch: byte) returns (e: Option<Event<T>>)
      modifies this
      ensures Outcome(View(), e) == Step(cfg, old(View()), ch)
      ensures old(Valid()) ==> Valid() && (IsFinal(e) ==> View() == Fresh(cfg))
    {
      ghost var m := View();
      if Safety.GoodConfig(cfg) && Safety.Inv(cfg, m) {
        Safety.StepKeeps(cfg, m, ch);
      }
      hide Step, Safety.Inv;
      e := Consume(ch);
      assert Outcome(View(), e).machine == View() && Outcome(View(), e).event == e;
    }

    /**
     Read `bytes` from position `pos` up to the first report, or to the end ("needs more data").
     What is left in the object is what the model has after exactly the bytes consumed.
     */
    method Parse(bytes: seq<byte>, pos: nat) returns (e: Option<Event<T>>, next: nat)
      requires pos <= |bytes|
      modifies this
      ensures pos <= next <= |bytes|
      ensures e.None? ==> next == |bytes|
      ensures e.Some? ==> pos < next
      ensures Trace(View(), ToSeq(e)) == Run(cfg, old(View()), bytes[pos..next])
      ensures old(Valid()) ==> Valid() && (IsFinal(e) ==> View() == Fresh(cfg))
    {
      hide *;
      e, next := None, pos;
      ghost var m := View();
      ReadsNothing(cfg, m, bytes, pos);
      while next < |bytes|
        invariant pos <= next <= |bytes| && e.None?
        invariant Trace(View(), ToSeq(e)) == Run(cfg, m, bytes[pos..next])
        invariant old(Valid()) ==> Valid()
      {
        ReadsOne(cfg, m, View(), bytes, pos, next);
        e := ConsumeValid(bytes[next]);
        next := next + 1;
        if e.Some? {
          return;
        }
      }
      NoneIsNotFinal(e);
    }

    /** Call `Parse` on one frame until it needs more data. */
    method ReadFrame(frame: seq<byte>) returns (events: seq<Event<T>>)
      modifies this
      ensures Trace(View(), events) == Run(cfg, old(View()), frame)
      ensures old(Valid()) ==> Valid()
    {
      hide *;
      events := [];
      var pos, done := 0, false;
      ghost var m := View();
      ReadsNothing(cfg, m, frame, 0);
      NoEvents<T>();
      while !done
        invariant 0 <= pos <= |frame|
        invariant done ==> pos == |frame|
        invariant Trace(View(), events) == Run(cfg, m, frame[0..pos])
        invariant old(Valid()) ==> Valid()
        decreases !done, |frame| - pos
      {
        ghost var from, before := pos, View();
        var e;
        e, pos := Parse(frame, pos);
        ReadsMore(cfg, m, before, events, frame, from, pos, View(), ToSeq(e));
        events := events + ToSeq(e);
        done := e.None?;
      }
      assert frame[0..pos] == frame;
    }

    /**
     Read a stream that arrives in frames. What is reported, and the state at the end, depend on
     the bytes alone, not on where the stream was cut; and the limits hold throughout.
     */
    method ReadFrames(frames: seq<seq<byte>>) returns (events: seq<Event<T>>)
      modifies this
      ensures Trace(View(), events) == Run(cfg, old(View()), Concat(frames))
      ensures old(Valid()) ==> Valid()
    {
      hide Step, Run, Valid;
      events := [];
      RunNone(cfg, View());
      for k := 0 to |frames|
        invariant Trace(View(), events) == Run(cfg, old(View()), Concat(frames[..k]))
        invariant old(Valid()) ==> Valid()
      {
        var more := ReadFrame(frames[k]);
        events := events + more;
        RunAppend(cfg, old(View()), Concat(frames[..k]), frames[k]);
        ConcatSnoc(frames[..k], frames[k]);
        assert frames[..k + 1] == frames[..k] + [frames[k]];
      }
      assert frames[..|frames|] == frames;
    }
  }

  /** A report that ends a request: it was completed or rejected. */
  predicate IsFinal<T>(e: Option<Event<T>>) {
    e.Some? && !e.value.NeedsLiteral?
  }

  lemma NoneIsNotFinal<T>(e: Option<Event<T>>)
    requires e.None?
    ensures !IsFinal(e)
  {
  }

  lemma NoEvents<T>()
    ensures ToSeq<Event<T>>(None) == []
  {
  }

  lemma ReadsNothing<T>(cfg: Config<T>, m: Machine<T>, bytes: seq<byte>, pos: nat)
    requires pos <= |bytes|
    ensures Trace(m, ToSeq(None)) == Run(cfg, m, bytes[pos..pos])
  {
    hide Step;
    assert bytes[pos..pos] == [];
  }

  /** One more byte of a stretch without reports. */
  lemma ReadsOne<T>(cfg: Config<T>, m: Machine<T>, m1: Machine<T>, bytes: seq<byte>, pos: nat, next: nat)
    requires pos <= next < |bytes| && Trace(m1, ToSeq(None)) == Run(cfg, m, bytes[pos..next])
    ensures var o, after := Step(cfg, m1, bytes[next]), next + 1;
            Trace(o.machine, ToSeq(o.event)) == Run(cfg, m, bytes[pos..after])
  {
    hide Step, Run;
    RunSnoc(cfg, m, bytes[pos..next], bytes[next]);
    assert bytes[pos..next + 1] == bytes[pos..next] + [bytes[next]];
    AppendEmpty(ToSeq(Step(cfg, m1, bytes[next]).event));
  }

  /** The stretch up to the next report, after what was read before. */
  lemma ReadsMore<T>(cfg: Config<T>, m: Machine<T>, m1: Machine<T>, events: seq<Event<T>>, frame: seq<byte>,
                     from: nat, to: nat, m2: Machine<T>, more: seq<Event<T>>)
    requires from <= to <= |frame|
    requires Trace(m1, events) == Run(cfg, m, frame[0..from]) && Trace(m2, more) == Run(cfg, m1, frame[from..to])
    ensures Trace(m2, events + more) == Run(cfg, m, frame[0..to])
  {
    hide Step, Run;
    RunAppend(cfg, m, frame[0..from], frame[from..to]);
    assert frame[0..from] + frame[from..to] == frame[0..to];
  }
}
