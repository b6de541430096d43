/** The byte-at-a-time receiver reports, for every stream, what the grammar's reader does. */
module ReceiverReads {
  import opened Basics
  import opened ReceiverModel
  import opened ReceiverSafety
  import opened ReceiverGrammar

  // ---- One byte more, in the grammar ------------------------------------------------------------

  lemma TailOf<T>(s: seq<T>, n: nat)
    requires n < |s|
    ensures s[1..][n..] == s[n + 1..] && s[..n + 1] == [s[0]] + s[1..][..n]
  {
  }

  lemma SpanStops(k: Kind, s: seq<byte>)
    requires s != [] && !Is(k, s[0])
    ensures Span(k, s) == 0 && s[..0] == [] && s[0..] == s
  {
  }

  lemma SpanGoes(k: Kind, s: seq<byte>)
    requires s != [] && Is(k, s[0])
    ensures var n := Span(k, s[1..]);
            && Span(k, s) == n + 1 && s[n + 1..] == s[1..][n..] && s[..n + 1] == [s[0]] + s[1..][..n]
            && (n + 1 < |s| ==> s[n + 2..] == s[1..][n + 1..])
  {
    hide Is;
    TailOf(s, Span(k, s[1..]));
  }

  lemma KeptGoes(ch: byte, s: seq<byte>)
    ensures Kept([ch] + s) == (if ch == 9 || ch == 13 then [] else [ch]) + Kept(s)
  {
    assert ([ch] + s)[1..] == s;
  }

  lemma EndGoes(s: seq<byte>, n: nat)
    requires s != [] && n > 0
    ensures EndOfKept(s, n) == 1 + EndOfKept(s[1..], if s[0] == 9 || s[0] == 13 then n else n - 1)
    ensures EndOfKept(s[1..], 0) == 0
  {
  }

  lemma TagSkips(utf8: seq<byte> -> bool, got: seq<byte>, s: seq<byte>)
    requires |got| <= 128 && s != [] && (s[0] == 9 || s[0] == 13)
    ensures TagPart(utf8, got, s) == TagPart(utf8, got, s[1..])
  {
    hide Span, Kept, EndOfKept, TagEnd;
    var n, e := Span(TagBytes, s[1..]), EndOfKept(s[1..], 129 - |got|);
    SpanGoes(TagBytes, s);
    KeptGoes(s[0], s[1..][..n]);
    EndGoes(s, 129 - |got|);
    EndOfKeptFits(s[1..], 129 - |got|);
    AppendEmpty(Kept(s[1..][..n]));
    assert s[e + 1..] == s[1..][e..];
  }

  lemma TagTakes(utf8: seq<byte> -> bool, got: seq<byte>, s: seq<byte>)
    requires |got| < 128 && s != [] && Is(TagBytes, s[0]) && s[0] != 9 && s[0] != 13
    ensures TagPart(utf8, got, s) == TagPart(utf8, got + [s[0]], s[1..])
  {
    hide Span, Kept, EndOfKept, TagEnd;
    var n, e := Span(TagBytes, s[1..]), EndOfKept(s[1..], 128 - |got|);
    SpanGoes(TagBytes, s);
    KeptGoes(s[0], s[1..][..n]);
    EndGoes(s, 129 - |got|);
    EndOfKeptFits(s[1..], 128 - |got|);
    AppendAssoc(got, [s[0]], Kept(s[1..][..n]));
    assert s[e + 1..] == s[1..][e..];
  }

  lemma TagIsFull(utf8: seq<byte> -> bool, got: seq<byte>, s: seq<byte>)
    requires |got| == 128 && s != [] && Is(TagBytes, s[0]) && s[0] != 9 && s[0] != 13
    ensures TagPart(utf8, got, s) == Refused(TagTooLong, s[1..])
  {
    hide Span, Kept, EndOfKept, TagEnd;
    var n := Span(TagBytes, s[1..]);
    SpanGoes(TagBytes, s);
    KeptGoes(s[0], s[1..][..n]);
    EndGoes(s, 1);
  }

  lemma TagEnds(utf8: seq<byte> -> bool, got: seq<byte>, s: seq<byte>)
    requires |got| <= 128 && s != [] && !Is(TagBytes, s[0])
    ensures TagPart(utf8, got, s) ==
            if s[0] == 10 then Refused(MissingCommand, s[1..])
            else if !utf8(got) then Refused(TagNotUtf8, s[1..])
            else Took(got, s[1..])
  {
    SpanStops(TagBytes, s);
    assert Kept([]) == [];
    AppendEmpty(got);
  }

  lemma BlankIsSkipped(s: seq<byte>)
    requires s != [] && Is(Blanks, s[0])
    ensures s[Span(Blanks, s)..] == s[1..][Span(Blanks, s[1..])..]
  {
    SpanGoes(Blanks, s);
  }

  lemma NameSkips(s: seq<byte>)
    requires s != [] && Is(Blanks, s[0])
    ensures NamePart([], s) == NamePart([], s[1..])
  {
    hide Span, Is, Capitals;
    BlankIsSkipped(s);
  }

  function Capital(ch: byte): byte {
    if 97 <= ch <= 122 then ch - 32 else ch
  }

  lemma CapitalsGoes(ch: byte, s: seq<byte>)
    ensures Capitals([ch] + s) == [Capital(ch)] + Capitals(s)
  {
    assert ([ch] + s)[1..] == s;
  }

  lemma LetterIsNotBlank(ch: byte)
    requires Is(Letters, ch)
    ensures !Is(Blanks, ch)
  {
  }

  lemma NameTakes(got: seq<byte>, s: seq<byte>)
    requires |got| < 15 && s != [] && Is(Letters, s[0])
    ensures NamePart(got, s) == NamePart(got + [Capital(s[0])], s[1..])
  {
    hide Spelled, Is;
    LetterIsNotBlank(s[0]);
    SpanStops(Blanks, s);
    SpelledTakes(got, s);
  }

  lemma SpelledTakes(got: seq<byte>, s: seq<byte>)
    requires |got| < 15 && s != [] && Is(Letters, s[0])
    ensures Spelled(got, s) == Spelled(got + [Capital(s[0])], s[1..])
  {
    hide Span, Is, Capitals, BlankAfter;
    var n := Span(Letters, s[1..]);
    SpanGoes(Letters, s);
    CapitalsGoes(s[0], s[1..][..n]);
    AppendAssoc(got, [Capital(s[0])], Capitals(s[1..][..n]));
    if 15 - |got| < |s| {
      TailOf(s, 15 - |got|);
    }
  }

  lemma NameIsFull(got: seq<byte>, s: seq<byte>)
    requires |got| == 15 && s != [] && Is(Letters, s[0])
    ensures NamePart(got, s) == Refused(CommandTooLong, s[1..])
  {
    hide Span, Is, Capitals;
    SpanGoes(Letters, s);
  }

  lemma NameEnds(got: seq<byte>, s: seq<byte>)
    requires |got| <= 15 && s != [] && !Is(Letters, s[0]) && (got == [] ==> !Is(Blanks, s[0]))
    ensures NamePart(got, s) ==
            if !Is(Blanks, s[0]) then Refused(InvalidCommandChar, s[1..]) else Took(NameEnd(got, s[0]), s[1..])
  {
    hide Span, Is;
    if got == [] {
      SpanStops(Blanks, s);
    }
    SpanStops(Letters, s);
    AppendEmpty(got);
  }

  lemma WordTakes(brackets: bool, got: seq<byte>, s: seq<byte>)
    requires |got| < 4096 && s != [] && Is(WordBytes(brackets), s[0])
    ensures WordPart(brackets, got, s) == WordPart(brackets, got + [s[0]], s[1..])
  {
    hide Span, Is;
    var n := Span(WordBytes(brackets), s[1..]);
    SpanGoes(WordBytes(brackets), s);
    AppendAssoc(got, [s[0]], s[1..][..n]);
    if 4096 - |got| < |s| {
      TailOf(s, 4096 - |got|);
    }
  }

  lemma WordIsFull(brackets: bool, got: seq<byte>, s: seq<byte>)
    requires |got| == 4096 && s != [] && Is(WordBytes(brackets), s[0])
    ensures WordPart(brackets, got, s) == Refused(ArgumentTooLong, s[1..])
  {
    hide Span, Is;
    SpanGoes(WordBytes(brackets), s);
  }

  lemma WordEnds(brackets: bool, got: seq<byte>, s: seq<byte>)
    requires |got| <= 4096 && s != [] && !Is(WordBytes(brackets), s[0])
    ensures WordPart(brackets, got, s) == Took(got, s)
  {
    hide Span, Is;
    SpanStops(WordBytes(brackets), s);
    AppendEmpty(got);
  }

  ghost predicate AllDigits(got: seq<byte>) {
    |got| <= 15 && forall i :: 0 <= i < |got| ==> Is(Digits, got[i])
  }

  lemma LengthTakes(got: seq<byte>, s: seq<byte>)
    requires AllDigits(got) && |got| < 15 && s != [] && Is(Digits, s[0])
    ensures LengthPart(got, false, s) == LengthPart(got + [s[0]], false, s[1..])
  {
    hide Span, Is, LengthEnd;
    var n := Span(Digits, s[1..]);
    SpanGoes(Digits, s);
    AppendAssoc(got, [s[0]], s[1..][..n]);
    if 15 - |got| < |s| {
      TailOf(s, 15 - |got|);
    }
  }

  lemma LengthIsFull(got: seq<byte>, s: seq<byte>)
    requires AllDigits(got) && |got| == 15 && s != [] && Is(Digits, s[0])
    ensures LengthPart(got, false, s) == Refused(TooManyDigits, s[1..])
  {
    hide Span, Is, Number;
    SpanGoes(Digits, s);
  }

  lemma LengthPlus(got: seq<byte>, plus: bool, s: seq<byte>)
    requires AllDigits(got) && s != [] && s[0] == 43
    ensures LengthPart(got, plus, s) ==
            if got == [] then Refused(InvalidNonSync, s[1..]) else LengthPart(got, true, s[1..])
  {
    hide Span, Number;
    SpanStops(Digits, s);
    SpanGoes(Pluses, s);
    AppendEmpty(got);
    assert s[1..][..0] == [] && s[1..][0..] == s[1..];
  }

  lemma LengthEnds(got: seq<byte>, plus: bool, s: seq<byte>)
    requires AllDigits(got) && s != [] && s[0] != 43 && (plus || !Is(Digits, s[0]))
    ensures LengthPart(got, plus, s) ==
            if s[0] == 125 then
              if got == [] then Refused(EmptyLiteral, s[1..])
              else if Number(got) >= 4_294_967_296 then Refused(LiteralSizeInvalid, s[1..])
              else Took(Size(Number(got), !plus), s[1..])
            else if Is(Digits, s[0]) then Refused(DigitAfterPlus, s[1..])
            else Refused(InvalidLiteralChar, s[1..])
  {
    hide Span, Number;
    if !plus {
      SpanStops(Digits, s);
    }
    SpanStops(Pluses, s);
    AppendEmpty(got);
  }

  lemma LineGoes(s: seq<byte>)
    requires s != [] && Is(LineBlanks, s[0])
    ensures LineEndPart(s) == LineEndPart(s[1..])
  {
    hide Span, Is;
    SpanGoes(LineBlanks, s);
  }

  lemma LineEnds(s: seq<byte>)
    requires s != [] && !Is(LineBlanks, s[0])
    ensures LineEndPart(s) == if s[0] != 10 then Refused(MissingCrlf, s[1..]) else Took(true, s[1..])
  {
    hide Span;
    SpanStops(LineBlanks, s);
  }

  lemma CutParts(utf8: seq<byte> -> bool, brackets: bool, got: seq<byte>, plus: bool)
    ensures |got| <= 128 ==> TagPart(utf8, got, []).Cut?
    ensures |got| <= 15 ==> NamePart(got, []).Cut?
    ensures |got| <= 4096 ==> WordPart(brackets, got, []).Cut?
    ensures AllDigits(got) && (plus ==> got != []) ==> LengthPart(got, plus, []).Cut?
    ensures LineEndPart([]).Cut?
  {
    assert Kept([]) == [];
  }

  // ---- What follows a part ----------------------------------------------------------------------

  lemma TaggedIs<T>(cfg: Config<T>, got: seq<byte>, s: seq<byte>)
    requires |got| <= 128
    ensures var p := TagPart(cfg.utf8, got, s);
            Tagged(cfg, got, s) ==
            if p.Cut? then []
            else if p.Refused? then Refuse(cfg, [], p.kind, p.rest)
            else Named(cfg, p.value, false, [], p.rest)
  {
    hide TagPart, Refuse, Named;
  }

  lemma NamedIs<T>(cfg: Config<T>, tag: seq<byte>, uid: bool, got: seq<byte>, s: seq<byte>)
    requires |got| <= 15
    ensures var p := NamePart(got, s);
            Named(cfg, tag, uid, got, s) ==
            if p.Cut? then []
            else if p.Refused? then Refuse(cfg, tag, p.kind, p.rest)
            else if p.value.name == [85, 73, 68] then Named(cfg, tag, true, [], p.rest)
            else
              var c := cfg.parse(p.value.name, uid);
              if c.None? then Refuse(cfg, tag, UnrecognizedCommand, p.rest)
              else if p.value.end == 10 then [Completed(Request(tag, c.value, []))] + Requests(cfg, p.rest)
              else Arguments(cfg, Request(tag, c.value, []), 0, true, p.rest)
  {
    hide NamePart, Refuse, Arguments, Requests;
  }

  lemma WordSame<T>(cfg: Config<T>, r: Request<T>, size: nat, got: seq<byte>, s: seq<byte>, got': seq<byte>, s': seq<byte>)
    requires |got| <= 4096 && (got == [] ==> s != [] && Is(WordBytes(cfg.brackets(r.command)), s[0]))
    requires 0 < |got'| <= 4096 && WordPart(cfg.brackets(r.command), got, s) == WordPart(cfg.brackets(r.command), got', s')
    ensures Word(cfg, r, size, got, s) == Word(cfg, r, size, got', s')
  {
    hide WordPart, Refuse, Arguments, Is;
  }

  lemma WordIs<T>(cfg: Config<T>, r: Request<T>, size: nat, got: seq<byte>, s: seq<byte>)
    requires |got| <= 4096 && (got == [] ==> s != [] && Is(WordBytes(cfg.brackets(r.command)), s[0]))
    ensures var p := WordPart(cfg.brackets(r.command), got, s);
            Word(cfg, r, size, got, s) ==
            if p.Cut? then []
            else if p.Refused? then Refuse(cfg, r.tag, p.kind, p.rest)
            else if size + |p.value| > cfg.maxSize then Refuse(cfg, r.tag, RequestTooLarge, p.rest[1..])
            else Arguments(cfg, r.(tokens := r.tokens + [Argument(p.value)]), size + |p.value|, false, p.rest)
  {
    hide WordPart, Refuse, Arguments, Is;
  }

  lemma QuotedSame<T>(cfg: Config<T>, r: Request<T>, size: nat, got: seq<byte>, s: seq<byte>, got': seq<byte>, s': seq<byte>)
    requires QuotePart(got, s) == QuotePart(got', s')
    ensures QuotedText(cfg, r, size, got, s) == QuotedText(cfg, r, size, got', s')
  {
    hide QuotePart, Refuse, Arguments;
  }

  lemma QuotedIsCut<T>(cfg: Config<T>, r: Request<T>, size: nat, got: seq<byte>, s: seq<byte>)
    requires QuotePart(got, s).Cut?
    ensures QuotedText(cfg, r, size, got, s) == []
  {
    hide QuotePart, Refuse, Arguments;
  }

  lemma QuotedRefused<T>(cfg: Config<T>, r: Request<T>, size: nat, got: seq<byte>, s: seq<byte>, kind: ErrorKind, rest: seq<byte>)
    requires QuotePart(got, s) == Refused(kind, rest)
    ensures QuotedText(cfg, r, size, got, s) == Refuse(cfg, r.tag, kind, rest)
  {
    hide QuotePart, Refuse, Arguments;
  }

  lemma QuotedTook<T>(cfg: Config<T>, r: Request<T>, size: nat, got: seq<byte>, s: seq<byte>, rest: seq<byte>)
    requires QuotePart(got, s) == Took(got, rest)
    ensures got == [] ==> QuotedText(cfg, r, size, got, s) == Arguments(cfg, WithOne(r, Nil), size, true, rest)
    ensures got != [] && size + |got| > cfg.maxSize ==>
              QuotedText(cfg, r, size, got, s) == Refuse(cfg, r.tag, RequestTooLarge, rest)
    ensures got != [] && size + |got| <= cfg.maxSize ==>
              QuotedText(cfg, r, size, got, s) == Arguments(cfg, WithOne(r, Argument(got)), size + |got|, true, rest)
  {
    hide QuotePart, Refuse, Arguments;
  }

  function WithOne<T>(r: Request<T>, t: Token): Request<T> {
    r.(tokens := r.tokens + [t])
  }

  lemma SizedIs<T>(cfg: Config<T>, r: Request<T>, size: nat, got: seq<byte>, plus: bool, s: seq<byte>)
    requires AllDigits(got)
    ensures var p := LengthPart(got, plus, s);
            Sized(cfg, r, size, got, plus, s) ==
            if p.Cut? then []
            else if p.Refused? then Refuse(cfg, r.tag, p.kind, p.rest)
            else if size + p.value.count > cfg.maxSize then Refuse(cfg, r.tag, LiteralTooLarge, p.rest)
            else Data(cfg, r, size, p.value.count, p.value.sync, p.rest)
  {
    hide LengthPart, Refuse, Data;
  }

  lemma DataSame<T>(cfg: Config<T>, r: Request<T>, size: nat, n: nat, sync: bool, s: seq<byte>, s': seq<byte>)
    requires LineEndPart(s) == LineEndPart(s')
    ensures Data(cfg, r, size, n, sync, s) == Data(cfg, r, size, n, sync, s')
  {
    hide LineEndPart, Refuse, Arguments;
  }

  lemma DataIsCutOff<T>(cfg: Config<T>, r: Request<T>, size: nat, n: nat, sync: bool)
    ensures Data(cfg, r, size, n, sync, []) == []
  {
    hide Refuse, Arguments;
  }

  lemma DataRefused<T>(cfg: Config<T>, r: Request<T>, size: nat, n: nat, sync: bool, s: seq<byte>, kind: ErrorKind, rest: seq<byte>)
    requires LineEndPart(s) == Refused(kind, rest)
    ensures Data(cfg, r, size, n, sync, s) == Refuse(cfg, r.tag, kind, rest)
  {
    hide LineEndPart, Refuse, Arguments;
  }

  function Prompt<T>(sync: bool, n: nat): seq<Event<T>> {
    if sync then [NeedsLiteral(n)] else []
  }

  lemma DataEmpty<T>(cfg: Config<T>, r: Request<T>, size: nat, sync: bool, s: seq<byte>, rest: seq<byte>)
    requires LineEndPart(s) == Took(true, rest)
    ensures size + 1 > cfg.maxSize ==> Data(cfg, r, size, 0, sync, s) == Refuse(cfg, r.tag, RequestTooLarge, rest)
    ensures size + 1 <= cfg.maxSize ==>
              Data(cfg, r, size, 0, sync, s) == Prompt(sync, 0) + Arguments(cfg, WithOne(r, Nil), size + 1, true, rest)
  {
    hide LineEndPart, Refuse, Arguments;
  }

  lemma DataTook<T>(cfg: Config<T>, r: Request<T>, size: nat, n: nat, sync: bool, s: seq<byte>, rest: seq<byte>)
    requires LineEndPart(s) == Took(true, rest) && n > 0
    ensures |rest| < n ==> Data(cfg, r, size, n, sync, s) == Prompt(sync, n)
    ensures n <= |rest| ==>
              Data(cfg, r, size, n, sync, s) ==
              Prompt(sync, n) + Arguments(cfg, WithOne(r, Argument(rest[..n])), size + n, true, rest[n..])
  {
    hide LineEndPart, Refuse, Arguments;
  }

  lemma ArgumentsNone<T>(cfg: Config<T>, r: Request<T>, size: nat, blank: bool)
    ensures Arguments(cfg, r, size, blank, []) == []
  {
  }

  lemma ArgumentsQuote<T>(cfg: Config<T>, r: Request<T>, size: nat, s: seq<byte>)
    requires s != [] && s[0] == 34
    ensures Arguments(cfg, r, size, true, s) == QuotedText(cfg, r, size, [], s[1..])
  {
    hide QuotedText, Sized, Requests, Word, Refuse;
  }

  lemma ArgumentsBrace<T>(cfg: Config<T>, r: Request<T>, size: nat, s: seq<byte>)
    requires s != [] && s[0] == 123
    ensures Arguments(cfg, r, size, true, s) == Sized(cfg, r, size, [], false, s[1..])
  {
    hide QuotedText, Sized, Requests, Word, Refuse;
  }

  lemma ArgumentsTilde<T>(cfg: Config<T>, r: Request<T>, size: nat, blank: bool, s: seq<byte>)
    requires |s| > 1 && s[0] == 126 && s[1] == 123
    ensures Arguments(cfg, r, size, blank, s) == Sized(cfg, r, size, [], false, s[2..])
  {
    hide QuotedText, Sized, Requests, Word, Refuse;
    assert s[1..][1..] == s[2..];
  }

  lemma ArgumentsMark<T>(cfg: Config<T>, r: Request<T>, size: nat, blank: bool, s: seq<byte>, t: Token)
    requires s != [] && Mark(cfg.brackets(r.command), s[0]) == Some(t)
    ensures size + 1 > cfg.maxSize ==> Arguments(cfg, r, size, blank, s) == Refuse(cfg, r.tag, RequestTooLarge, s[1..])
    ensures size + 1 <= cfg.maxSize ==>
              Arguments(cfg, r, size, blank, s) == Arguments(cfg, WithOne(r, t), size + 1, blank, s[1..])
  {
    hide QuotedText, Sized, Requests, Word, Refuse;
  }

  lemma ArgumentsLine<T>(cfg: Config<T>, r: Request<T>, size: nat, blank: bool, s: seq<byte>)
    requires s != [] && s[0] == 10
    ensures Arguments(cfg, r, size, blank, s) == [Completed(r)] + Requests(cfg, s[1..])
  {
    hide QuotedText, Sized, Requests, Word, Refuse;
  }

  lemma ArgumentsBlank<T>(cfg: Config<T>, r: Request<T>, size: nat, blank: bool, s: seq<byte>)
    requires s != [] && s[0] != 10 && Is(Blanks, s[0])
    ensures Arguments(cfg, r, size, blank, s) == Arguments(cfg, r, size, true, s[1..])
  {
    hide QuotedText, Sized, Requests, Word, Refuse;
  }

  lemma ArgumentsWord<T>(cfg: Config<T>, r: Request<T>, size: nat, blank: bool, s: seq<byte>)
    requires s != [] && Is(WordBytes(cfg.brackets(r.command)), s[0]) && (blank ==> s[0] != 34 && s[0] != 123)
    requires !(|s| > 1 && s[0] == 126 && s[1] == 123)
    ensures Arguments(cfg, r, size, blank, s) == Word(cfg, r, size, [], s)
  {
    hide QuotedText, Sized, Requests, Word, Refuse;
  }

  // ---- One byte more, in the machine ------------------------------------------------------------

  lemma RunGoes<T>(cfg: Config<T>, m: Machine<T>, s: seq<byte>, m': Machine<T>)
    requires s != [] && Step(cfg, m, s[0]) == Go(m')
    ensures Run(cfg, m, s).events == Run(cfg, m', s[1..]).events
  {
    hide Step;
    AppendEmpty(Run(cfg, m', s[1..]).events);
  }

  /** The request is refused, and a fresh receiver reads on. */
  lemma RunFails<T>(cfg: Config<T>, m: Machine<T>, s: seq<byte>, tag: seq<byte>, kind: ErrorKind)
    requires GoodConfig(cfg) && s != []
    requires Step(cfg, m, s[0]) == Outcome(Fresh(cfg), Some(Rejected(if tag == [] then None else Some(tag), kind)))
    ensures Run(cfg, m, s).events == Refuse(cfg, tag, kind, s[1..])
    decreases |s|, 0
  {
    hide Step, Requests;
    ReadsRequests(cfg, s[1..]);
  }

  lemma RunFinishes<T>(cfg: Config<T>, m: Machine<T>, s: seq<byte>, r: Request<T>)
    requires GoodConfig(cfg) && s != [] && Step(cfg, m, s[0]) == Outcome(Fresh(cfg), Some(Completed(r)))
    ensures Run(cfg, m, s).events == [Completed(r)] + Requests(cfg, s[1..])
    decreases |s|, 0
  {
    hide Step, Requests;
    ReadsRequests(cfg, s[1..]);
  }

  lemma {:induction false} NumberIs(digits: seq<byte>)
    requires forall i :: 0 <= i < |digits| ==> Is(Digits, digits[i])
    ensures (forall i :: 0 <= i < |digits| ==> IsDigit(digits[i])) && Decimal(digits) == Number(digits)
    decreases |digits|
  {
    assert forall i :: 0 <= i < |digits| ==> IsDigit(digits[i]) by {
      assert forall i :: 0 <= i < |digits| ==> Is(Digits, digits[i]);
    }
    if digits != [] {
      NumberIs(digits[..|digits| - 1]);
    }
  }

  /** The machine's kinds of bytes are the grammar's. */
  lemma KindsAgree<T>(cfg: Config<T>, c: T, ch: byte)
    ensures IsSpace(ch) == Is(Blanks, ch) && IsAlnum(ch) == Is(Letters, ch) && IsDigit(ch) == Is(Digits, ch)
    ensures Upper(ch) == Capital(ch)
    ensures Punctuation(cfg, c, ch) == Mark(cfg.brackets(c), ch)
    ensures Is(WordBytes(cfg.brackets(c)), ch) == (!Is(Blanks, ch) && Mark(cfg.brackets(c), ch).None?)
    ensures Is(LineBlanks, ch) == (Is(Blanks, ch) && ch != 10)
  {
  }

  // ---- Tags and names ---------------------------------------------------------------------------

  /** For every stream, a fresh receiver reports what the grammar says. */
  lemma {:induction false} ReadsRequests<T>(cfg: Config<T>, s: seq<byte>)
    requires GoodConfig(cfg)
    ensures Run(cfg, Fresh(cfg), s).events == Requests(cfg, s)
    decreases |s|, 9
  {
    if cfg.start != Start {
      hide Run, Named;
      ReadsName(cfg, Fresh(cfg), s);
    } else if s != [] {
      KindsAgree(cfg, cfg.default, s[0]);
      if Is(Blanks, s[0]) {
        assert Step(cfg, Fresh(cfg), s[0]) == Go(Fresh(cfg));
        BlankIsSkipped(s);
        hide Step, Run, Tagged, Is, Span;
        RunGoes(cfg, Fresh(cfg), s, Fresh(cfg));
        ReadsRequests(cfg, s[1..]);
      } else {
        var m := Machine([s[0]], EmptyRequest(cfg), Tag, 0);
        assert Step(cfg, Fresh(cfg), s[0]) == Go(m);
        SpanStops(Blanks, s);
        TagTakes(cfg.utf8, [], s);
        AppendEmpty([s[0]]);
        hide Step, Run, TagPart, Span;
        RunGoes(cfg, Fresh(cfg), s, m);
        ReadsTag(cfg, m, s[1..]);
      }
    }
  }

  lemma StepTagIs<T>(cfg: Config<T>, m: Machine<T>, ch: byte)
    requires m == Machine(m.buf, EmptyRequest(cfg), Tag, 0) && 0 < |m.buf| <= 128
    ensures Step(cfg, m, ch) ==
            if ch == 32 then
              if cfg.utf8(m.buf) then Go(Machine([], Request(m.buf, cfg.default, []), Command(false), 0))
              else Outcome(Fresh(cfg), Some(Rejected(None, TagNotUtf8)))
            else if ch == 10 then Outcome(Fresh(cfg), Some(Rejected(None, MissingCommand)))
            else if ch == 9 || ch == 13 then Go(m)
            else if |m.buf| < 128 then Go(m.(buf := m.buf + [ch]))
            else Outcome(Fresh(cfg), Some(Rejected(None, TagTooLong)))
  {
  }

  lemma {:induction false} ReadsTag<T>(cfg: Config<T>, m: Machine<T>, s: seq<byte>)
    requires GoodConfig(cfg) && m == Machine(m.buf, EmptyRequest(cfg), Tag, 0) && 0 < |m.buf| <= 128
    ensures Run(cfg, m, s).events == Tagged(cfg, m.buf, s)
    decreases |s|, 8
  {
    hide Step, Run, Requests, Refuse, Tagged, Named, Arguments, Word, QuotedText, Sized, Data, TagPart;
    if s == [] {
      CutParts(cfg.utf8, false, m.buf, false);
      TaggedIs(cfg, m.buf, s);
      RunNone(cfg, m);
    } else {
      var ch, got := s[0], m.buf;
      StepTagIs(cfg, m, ch);
      TaggedIs(cfg, got, s);
      if ch == 9 || ch == 13 {
        RunGoes(cfg, m, s, m);
        TagSkips(cfg.utf8, got, s);
        TaggedIs(cfg, got, s[1..]);
        ReadsTag(cfg, m, s[1..]);
      } else if Is(TagBytes, ch) && |got| < 128 {
        var m' := m.(buf := got + [ch]);
        RunGoes(cfg, m, s, m');
        TagTakes(cfg.utf8, got, s);
        TaggedIs(cfg, got + [ch], s[1..]);
        ReadsTag(cfg, m', s[1..]);
      } else if Is(TagBytes, ch) {
        RunFails(cfg, m, s, [], TagTooLong);
        TagIsFull(cfg.utf8, got, s);
      } else {
        TagEnds(cfg.utf8, got, s);
        if ch == 10 {
          RunFails(cfg, m, s, [], MissingCommand);
        } else if !cfg.utf8(got) {
          RunFails(cfg, m, s, [], TagNotUtf8);
        } else {
          var m' := Machine([], Request(got, cfg.default, []), Command(false), 0);
          RunGoes(cfg, m, s, m');
          ReadsName(cfg, m', s[1..]);
        }
      }
    }
  }

  /** A command name of capitals and digits, not longer than allowed. */
  ghost predicate InName<T>(cfg: Config<T>, m: Machine<T>) {
    && m.state.Command? && m == Machine(m.buf, Request(m.request.tag, cfg.default, []), m.state, 0) && |m.buf| <= 15
    && forall i :: 0 <= i < |m.buf| ==> Upper(m.buf[i]) == m.buf[i]
  }

  lemma StepNameIs<T>(cfg: Config<T>, m: Machine<T>, ch: byte)
    requires InName(cfg, m)
    ensures Is(Letters, ch) && |m.buf| < 15 ==> Step(cfg, m, ch) == Go(m.(buf := m.buf + [Capital(ch)]))
    ensures Is(Letters, ch) && |m.buf| == 15 ==> Step(cfg, m, ch) == Fail(cfg, m, CommandTooLong)
    ensures !Is(Letters, ch) && !Is(Blanks, ch) ==> Step(cfg, m, ch) == Fail(cfg, m, InvalidCommandChar)
    ensures Is(Blanks, ch) && m.buf == [] ==> Step(cfg, m, ch) == Go(m)
  {
    KindsAgree(cfg, cfg.default, ch);
    hide Fail;
  }

  lemma StepNameEnds<T>(cfg: Config<T>, m: Machine<T>, ch: byte)
    requires InName(cfg, m) && Is(Blanks, ch) && m.buf != []
    ensures Step(cfg, m, ch) ==
            if m.buf == [85, 73, 68] then Go(m.(buf := [], state := Command(true)))
            else
              var c := cfg.parse(m.buf, m.state.isUid);
              if c.None? then Fail(cfg, m, UnrecognizedCommand)
              else
                var r := Request(m.request.tag, c.value, []);
                if ch == 10 then Outcome(Fresh(cfg), Some(Completed(r))) else Go(Machine([], r, Args(32), 0))
  {
    KindsAgree(cfg, cfg.default, ch);
    UpperIsSame(m.buf);
    hide Fail, UpperAll;
  }

  lemma {:induction false} ReadsName<T>(cfg: Config<T>, m: Machine<T>, s: seq<byte>)
    requires GoodConfig(cfg) && InName(cfg, m)
    ensures Run(cfg, m, s).events == Named(cfg, m.request.tag, m.state.isUid, m.buf, s)
    decreases |s|, 8
  {
    hide Step, Run, Requests, Refuse, Tagged, Named, Arguments, Word, QuotedText, Sized, Data, NamePart, Is;
    if s == [] {
      NameGrows(cfg, m, 0);
      CutParts(cfg.utf8, false, m.buf, false);
      NamedIs(cfg, m.request.tag, m.state.isUid, m.buf, s);
      RunNone(cfg, m);
    } else {
      var ch, got, tag, uid := s[0], m.buf, m.request.tag, m.state.isUid;
      var m' := m.(buf := got + [Capital(ch)]);
      StepNameIs(cfg, m, ch);
      NameGrows(cfg, m, ch);
      NamedIs(cfg, tag, uid, got, s);
      if Is(Letters, ch) && |got| < 15 {
        RunGoes(cfg, m, s, m');
        NameTakes(got, s);
        NamedIs(cfg, tag, uid, got + [Capital(ch)], s[1..]);
        ReadsName(cfg, m', s[1..]);
      } else if Is(Letters, ch) {
        RunFails(cfg, m, s, tag, CommandTooLong);
        NameIsFull(got, s);
      } else if !Is(Blanks, ch) {
        RunFails(cfg, m, s, tag, InvalidCommandChar);
        NameEnds(got, s);
      } else if got == [] {
        RunGoes(cfg, m, s, m);
        NameSkips(s);
        NamedIs(cfg, tag, uid, got, s[1..]);
        ReadsName(cfg, m, s[1..]);
      } else {
        ReadsNameEnd(cfg, m, s);
      }
    }
  }

  lemma NameGrows<T>(cfg: Config<T>, m: Machine<T>, ch: byte)
    requires InName(cfg, m)
    ensures |m.buf| <= 15 && (|m.buf| < 15 ==> InName(cfg, m.(buf := m.buf + [Capital(ch)])))
  {
  }

  lemma {:induction false} ReadsNameEnd<T>(cfg: Config<T>, m: Machine<T>, s: seq<byte>)
    requires GoodConfig(cfg) && InName(cfg, m) && s != [] && !Is(Letters, s[0]) && Is(Blanks, s[0]) && m.buf != []
    ensures Run(cfg, m, s).events == Named(cfg, m.request.tag, m.state.isUid, m.buf, s)
    decreases |s|, 7
  {
    hide Step, Run, Requests, Refuse, Tagged, Named, Arguments, Word, QuotedText, Sized, Data, NamePart, Is;
    var ch, got, tag, uid := s[0], m.buf, m.request.tag, m.state.isUid;
    StepNameEnds(cfg, m, ch);
    NameEnds(got, s);
    NamedIs(cfg, tag, uid, got, s);
    if got == [85, 73, 68] {
      var m' := m.(buf := [], state := Command(true));
      RunGoes(cfg, m, s, m');
      ReadsName(cfg, m', s[1..]);
    } else if cfg.parse(got, uid).None? {
      RunFails(cfg, m, s, tag, UnrecognizedCommand);
    } else {
      var r := Request(tag, cfg.parse(got, uid).value, []);
      if ch == 10 {
        RunFinishes(cfg, m, s, r);
      } else {
        var m' := Machine([], r, Args(32), 0);
        SpaceIsBlank();
        RunGoes(cfg, m, s, m');
        ReadsArguments(cfg, m', s[1..]);
      }
    }
  }

  // ---- Arguments --------------------------------------------------------------------------------

  ghost predicate BetweenTokens<T>(m: Machine<T>) {
    m.buf == [] && m.state.Args?
  }

  // What a byte does between two tokens.

  lemma StepOpens<T>(cfg: Config<T>, m: Machine<T>)
    requires BetweenTokens(m) && Is(Blanks, m.state.lastCh)
    ensures Step(cfg, m, 34) == Go(m.(state := Quoted(false))) && Step(cfg, m, 123) == Go(m.(state := Literal(false)))
  {
    hide Punctuation;
  }

  lemma StepMarkIs<T>(cfg: Config<T>, m: Machine<T>, ch: byte, t: Token)
    requires BetweenTokens(m) && Mark(cfg.brackets(m.request.command), ch) == Some(t)
    ensures m.size + 1 > cfg.maxSize ==> Step(cfg, m, ch) == Fail(cfg, m, RequestTooLarge)
    ensures m.size + 1 <= cfg.maxSize ==> Step(cfg, m, ch) == Go(WithToken(m, t).(size := m.size + 1))
  {
    KindsAgree(cfg, m.request.command, ch);
    assert !Is(WordBytes(cfg.brackets(m.request.command)), ch);
    MarksAreOther(cfg.brackets(m.request.command), ch);
    hide Fail, Punctuation, Mark, Is;
  }

  lemma StepBlankIs<T>(cfg: Config<T>, m: Machine<T>, ch: byte)
    requires BetweenTokens(m) && Is(Blanks, ch)
    ensures Step(cfg, m, ch) == if ch == 10 then Outcome(Fresh(cfg), Some(Completed(m.request))) else Go(m.(state := Args(ch)))
  {
  }

  lemma StepWordStarts<T>(cfg: Config<T>, m: Machine<T>, ch: byte)
    requires BetweenTokens(m) && Is(WordBytes(cfg.brackets(m.request.command)), ch)
    requires Is(Blanks, m.state.lastCh) ==> ch != 34 && ch != 123
    ensures Step(cfg, m, ch) == Go(m.(buf := [ch], state := Args(ch)))
  {
    KindsAgree(cfg, m.request.command, ch);
    KindsAgree(cfg, m.request.command, m.state.lastCh);
    LineFeedIsBlank();
    hide Punctuation, Mark, Is, IsSpace;
    assert [] + [ch] == [ch];
  }

  lemma {:induction false} ReadsArguments<T>(cfg: Config<T>, m: Machine<T>, s: seq<byte>)
    requires GoodConfig(cfg) && BetweenTokens(m)
    ensures Run(cfg, m, s).events == Arguments(cfg, m.request, m.size, Is(Blanks, m.state.lastCh), s)
    decreases |s|, 6
  {
    hide Step, Run, Requests, Refuse, Tagged, Named, Arguments, Word, QuotedText, Sized, Data, Is;
    if s == [] {
      ArgumentsNone(cfg, m.request, m.size, Is(Blanks, m.state.lastCh));
      RunNone(cfg, m);
    } else {
      var ch, r, blank := s[0], m.request, Is(Blanks, m.state.lastCh);
      if blank && ch == 34 {
        StepOpens(cfg, m);
        ArgumentsQuote(cfg, r, m.size, s);
        RunGoes(cfg, m, s, m.(state := Quoted(false)));
        ReadsQuote(cfg, m.(state := Quoted(false)), s[1..]);
      } else if blank && ch == 123 {
        StepOpens(cfg, m);
        ArgumentsBrace(cfg, r, m.size, s);
        RunGoes(cfg, m, s, m.(state := Literal(false)));
        ReadsLength(cfg, m.(state := Literal(false)), s[1..]);
      } else if Is(WordBytes(cfg.brackets(r.command)), ch) {
        ReadsWordStart(cfg, m, s);
      } else {
        ReadsMark(cfg, m, s);
      }
    }
  }

  /** Punctuation, a blank or the end of the line. */
  lemma {:induction false} ReadsMark<T>(cfg: Config<T>, m: Machine<T>, s: seq<byte>)
    requires GoodConfig(cfg) && BetweenTokens(m) && s != [] && !Is(WordBytes(cfg.brackets(m.request.command)), s[0])
    ensures Run(cfg, m, s).events == Arguments(cfg, m.request, m.size, Is(Blanks, m.state.lastCh), s)
    decreases |s|, 5
  {
    hide Step, Run, Requests, Refuse, Tagged, Named, Arguments, Word, QuotedText, Sized, Data, Mark, Is;
    var ch, r, blank := s[0], m.request, Is(Blanks, m.state.lastCh);
    KindsAgree(cfg, r.command, ch);
    if Mark(cfg.brackets(r.command), ch).Some? {
      ReadsPunctuation(cfg, m, s, Mark(cfg.brackets(r.command), ch).value);
    } else if ch == 10 {
      StepBlankIs(cfg, m, ch);
      ArgumentsLine(cfg, r, m.size, blank, s);
      RunFinishes(cfg, m, s, r);
    } else {
      StepBlankIs(cfg, m, ch);
      ArgumentsBlank(cfg, r, m.size, blank, s);
      RunGoes(cfg, m, s, m.(state := Args(ch)));
      ReadsArguments(cfg, m.(state := Args(ch)), s[1..]);
    }
  }

  lemma {:induction false} ReadsPunctuation<T>(cfg: Config<T>, m: Machine<T>, s: seq<byte>, t: Token)
    requires GoodConfig(cfg) && BetweenTokens(m) && s != [] && Mark(cfg.brackets(m.request.command), s[0]) == Some(t)
    ensures Run(cfg, m, s).events == Arguments(cfg, m.request, m.size, Is(Blanks, m.state.lastCh), s)
    decreases |s|, 4
  {
    hide Step, Run, Requests, Refuse, Tagged, Named, Arguments, Word, QuotedText, Sized, Data, Mark, Is;
    var r := m.request;
    StepMarkIs(cfg, m, s[0], t);
    ArgumentsMark(cfg, r, m.size, Is(Blanks, m.state.lastCh), s, t);
    if m.size + 1 > cfg.maxSize {
      RunFails(cfg, m, s, r.tag, RequestTooLarge);
    } else {
      var m' := WithToken(m, t).(size := m.size + 1);
      RunGoes(cfg, m, s, m');
      ReadsArguments(cfg, m', s[1..]);
    }
  }

  lemma MarksAreOther(brackets: bool, ch: byte)
    requires !Is(WordBytes(brackets), ch)
    ensures ch != 34 && ch != 123 && ch != 126
  {
  }

  lemma {:induction false} ReadsWordStart<T>(cfg: Config<T>, m: Machine<T>, s: seq<byte>)
    requires GoodConfig(cfg) && BetweenTokens(m) && s != [] && Is(WordBytes(cfg.brackets(m.request.command)), s[0])
    requires Is(Blanks, m.state.lastCh) ==> s[0] != 34 && s[0] != 123
    ensures Run(cfg, m, s).events == Arguments(cfg, m.request, m.size, Is(Blanks, m.state.lastCh), s)
    decreases |s|, 5
  {
    hide Step, Run, Requests, Refuse, Tagged, Named, Arguments, Word, QuotedText, Sized, Data, Mark, Is, WordPart;
    var ch, r, rest, blank := s[0], m.request, s[1..], Is(Blanks, m.state.lastCh);
    var m' := m.(buf := [ch], state := Args(ch));
    StepWordStarts(cfg, m, ch);
    KindsAgree(cfg, r.command, ch);
    RunGoes(cfg, m, s, m');
    if ch == 126 && rest != [] && rest[0] == 123 {
      var m'' := m.(state := Literal(false));
      StepTilde(cfg, m', m'');
      ArgumentsTilde(cfg, r, m.size, blank, s);
      RunGoes(cfg, m', rest, m'');
      assert rest[1..] == s[2..];
      ReadsLength(cfg, m'', s[2..]);
    } else {
      ArgumentsWord(cfg, r, m.size, blank, s);
      WordTakes(cfg.brackets(r.command), [], s);
      AppendEmpty([ch]);
      WordSame(cfg, r, m.size, [], s, [ch], rest);
      ReadsWord(cfg, m', rest);
    }
  }

  lemma SpaceIsBlank()
    ensures Is(Blanks, 32)
  {
  }

  lemma LineFeedIsBlank()
    ensures Is(Blanks, 10)
  {
  }

  /** The tilde of a binary literal is dropped. */
  lemma StepTilde<T>(cfg: Config<T>, m: Machine<T>, m': Machine<T>)
    requires m.state == Args(126) && m.buf == [126] && m' == m.(buf := [], state := Literal(false))
    ensures Step(cfg, m, 123) == Go(m')
  {
  }

  ghost predicate InWord<T>(m: Machine<T>) {
    m.state.Args? && 0 < |m.buf| <= 4096 && m.state.lastCh == m.buf[|m.buf| - 1] && !IsSpace(m.state.lastCh)
  }

  lemma StepWordIs<T>(cfg: Config<T>, m: Machine<T>, ch: byte)
    requires InWord(m) && Is(WordBytes(cfg.brackets(m.request.command)), ch) && (m.buf == [126] ==> ch != 123)
    ensures Step(cfg, m, ch) ==
            if |m.buf| < 4096 then Go(m.(buf := m.buf + [ch], state := Args(ch))) else Fail(cfg, m, ArgumentTooLong)
  {
    KindsAgree(cfg, m.request.command, ch);
    LineFeedIsBlank();
    assert |m.buf| == 1 && m.buf[0] == 126 ==> m.buf == [126];
    hide Fail, Punctuation, Mark, Is;
  }

  lemma {:induction false} ReadsWord<T>(cfg: Config<T>, m: Machine<T>, s: seq<byte>)
    requires GoodConfig(cfg) && InWord(m) && (m.buf == [126] ==> s == [] || s[0] != 123)
    ensures Run(cfg, m, s).events == Word(cfg, m.request, m.size, m.buf, s)
    decreases |s|, 8
  {
    hide Step, Run, Requests, Refuse, Tagged, Named, Arguments, Word, QuotedText, Sized, Data, WordPart, Is;
    var r, got := m.request, m.buf;
    if s == [] {
      CutParts(cfg.utf8, cfg.brackets(r.command), got, false);
      WordIs(cfg, r, m.size, got, s);
      RunNone(cfg, m);
    } else {
      var ch := s[0];
      KindsAgree(cfg, r.command, ch);
      if Is(WordBytes(cfg.brackets(r.command)), ch) {
        StepWordIs(cfg, m, ch);
        if |got| < 4096 {
          RunGoes(cfg, m, s, m.(buf := got + [ch], state := Args(ch)));
          WordTakes(cfg.brackets(r.command), got, s);
          WordSame(cfg, r, m.size, got, s, got + [ch], s[1..]);
          ReadsWord(cfg, m.(buf := got + [ch], state := Args(ch)), s[1..]);
        } else {
          RunFails(cfg, m, s, r.tag, ArgumentTooLong);
          WordIsFull(cfg.brackets(r.command), got, s);
          WordIs(cfg, r, m.size, got, s);
        }
      } else {
        ReadsWordEnd(cfg, m, s);
      }
    }
  }

  /** The byte that ends an atom is read as if the atom had been pushed before it. */
  lemma FlushedFirst<T>(cfg: Config<T>, m: Machine<T>, ch: byte)
    requires InWord(m) && !Is(WordBytes(cfg.brackets(m.request.command)), ch)
    ensures var o := PushArgument(cfg, m, false);
            Step(cfg, m, ch) == if o.event.Some? then o else Step(cfg, o.machine, ch)
  {
    KindsAgree(cfg, m.request.command, ch);
    MarksAreOther(cfg.brackets(m.request.command), ch);
    hide Punctuation, Mark, Is, IsSpace;
  }

  lemma {:induction false} ReadsWordEnd<T>(cfg: Config<T>, m: Machine<T>, s: seq<byte>)
    requires GoodConfig(cfg) && InWord(m) && s != [] && !Is(WordBytes(cfg.brackets(m.request.command)), s[0])
    ensures Run(cfg, m, s).events == Word(cfg, m.request, m.size, m.buf, s)
    decreases |s|, 7
  {
    hide Step, Run, Requests, Refuse, Tagged, Named, Arguments, Word, QuotedText, Sized, Data, WordPart, Is;
    var r, got := m.request, m.buf;
    KindsAgree(cfg, r.command, m.state.lastCh);
    FlushedFirst(cfg, m, s[0]);
    WordEnds(cfg.brackets(r.command), got, s);
    WordIs(cfg, r, m.size, got, s);
    if m.size + |got| > cfg.maxSize {
      RunFails(cfg, m, s, r.tag, RequestTooLarge);
    } else {
      var m' := WithToken(m, Argument(got)).(buf := [], size := m.size + |got|);
      assert PushArgument(cfg, m, false) == Go(m');
      SameFirstStep(cfg, m, m', s);
      ReadsArguments(cfg, m', s);
    }
  }

  lemma SameFirstStep<T>(cfg: Config<T>, m: Machine<T>, m': Machine<T>, s: seq<byte>)
    requires s != [] && Step(cfg, m, s[0]) == Step(cfg, m', s[0])
    ensures Run(cfg, m, s) == Run(cfg, m', s)
  {
    hide Step;
  }

  // ---- Quoted strings ---------------------------------------------------------------------------

  lemma {:induction false} ReadsQuote<T>(cfg: Config<T>, m: Machine<T>, s: seq<byte>)
    requires GoodConfig(cfg) && m.state == Quoted(false) && |m.buf| <= 4096
    ensures Run(cfg, m, s).events == QuotedText(cfg, m.request, m.size, m.buf, s)
    decreases |s|, 3
  {
    hide Step, Run, Requests, Refuse, Tagged, Named, Arguments, Word, QuotedText, Sized, Data, QuotePart;
    if s == [] || s == [92] {
      QuoteIsCut(m.buf);
      QuotedIsCut(cfg, m.request, m.size, m.buf, s);
      BackslashIsSilent(cfg, m);
      RunNone(cfg, m);
    } else {
      var ch, got := s[0], m.buf;
      if ch == 34 {
        ReadsQuoteEnd(cfg, m, s);
      } else if ch == 92 {
        ReadsEscape(cfg, m, s);
      } else {
        StepPlainIs(cfg, m, ch);
        QuoteGoes(got, s);
        if ch == 10 {
          RunFails(cfg, m, s, m.request.tag, UnterminatedQuoted);
          QuotedRefused(cfg, m.request, m.size, got, s, UnterminatedQuoted, s[1..]);
        } else if |got| + 1 > 4096 {
          RunFails(cfg, m, s, m.request.tag, QuotedTooLong);
          QuotedRefused(cfg, m.request, m.size, got, s, QuotedTooLong, s[1..]);
        } else {
          var m' := m.(buf := got + [ch]);
          RunGoes(cfg, m, s, m');
          QuotedSame(cfg, m.request, m.size, got, s, got + [ch], s[1..]);
          ReadsQuote(cfg, m', s[1..]);
        }
      }
    }
  }

  lemma QuoteGoes(got: seq<byte>, s: seq<byte>)
    requires s != [] && s[0] != 34 && s[0] != 92
    ensures QuotePart(got, s) ==
            if s[0] == 10 then Refused(UnterminatedQuoted, s[1..])
            else if |got| + 1 > 4096 then Refused(QuotedTooLong, s[1..])
            else QuotePart(got + [s[0]], s[1..])
  {
  }

  lemma QuoteCloses(got: seq<byte>, s: seq<byte>)
    requires s != [] && s[0] == 34
    ensures QuotePart(got, s) == Took(got, s[1..])
  {
  }

  lemma QuoteIsCut(got: seq<byte>)
    ensures QuotePart(got, []).Cut? && QuotePart(got, [92]).Cut?
  {
  }

  lemma EscapeGoes(got: seq<byte>, s: seq<byte>)
    requires |s| > 1 && s[0] == 92
    ensures var unit := Unit(s[1]);
            QuotePart(got, s) ==
            if s[1] == 10 then Refused(UnterminatedQuoted, s[2..])
            else if |got| + |unit| > 4096 then Refused(QuotedTooLong, s[2..])
            else QuotePart(got + unit, s[2..])
  {
  }

  /** What a backslash and the byte after it stand for. */
  function Unit(ch: byte): seq<byte> {
    if ch != 34 && ch != 92 then [92, ch] else [ch]
  }

  lemma BackslashIsSilent<T>(cfg: Config<T>, m: Machine<T>)
    requires m.state == Quoted(false)
    ensures Step(cfg, m, 92) == Go(m.(state := Quoted(true))) && Run(cfg, m, [92]).events == []
  {
    RunOne(cfg, m, 92);
  }

  lemma StepPlainIs<T>(cfg: Config<T>, m: Machine<T>, ch: byte)
    requires m.state == Quoted(false) && ch != 34 && ch != 92
    ensures Step(cfg, m, ch) ==
            if ch == 10 then Fail(cfg, m, UnterminatedQuoted)
            else if |m.buf| + 1 > 4096 then Fail(cfg, m, QuotedTooLong)
            else Go(m.(buf := m.buf + [ch]))
  {
  }

  lemma StepEscapeIs<T>(cfg: Config<T>, m: Machine<T>, ch: byte)
    requires m.state == Quoted(true)
    ensures ch == 10 ==> Step(cfg, m, ch) == Fail(cfg, m, UnterminatedQuoted)
    ensures ch != 10 && |m.buf| + |Unit(ch)| > 4096 ==> Step(cfg, m, ch) == Fail(cfg, m, QuotedTooLong)
    ensures ch != 10 && |m.buf| + |Unit(ch)| <= 4096 ==>
              Step(cfg, m, ch) == Go(m.(buf := m.buf + Unit(ch), state := Quoted(false)))
  {
    assert m.buf + [92] + [ch] == m.buf + [92, ch];
  }

  lemma {:induction false} ReadsEscape<T>(cfg: Config<T>, m: Machine<T>, s: seq<byte>)
    requires GoodConfig(cfg) && m.state == Quoted(false) && |m.buf| <= 4096 && |s| > 1 && s[0] == 92
    ensures Run(cfg, m, s).events == QuotedText(cfg, m.request, m.size, m.buf, s)
    decreases |s|, 2
  {
    hide Step, Run, Requests, Refuse, Tagged, Named, Arguments, Word, QuotedText, Sized, Data, QuotePart;
    var m1, t, ch, got := m.(state := Quoted(true)), s[1..], s[1], m.buf;
    BackslashIsSilent(cfg, m);
    StepEscapeIs(cfg, m1, ch);
    EscapeGoes(got, s);
    RunGoes(cfg, m, s, m1);
    assert t[1..] == s[2..];
    if ch == 10 {
      RunFails(cfg, m1, t, m.request.tag, UnterminatedQuoted);
      QuotedRefused(cfg, m.request, m.size, got, s, UnterminatedQuoted, s[2..]);
    } else if |got| + |Unit(ch)| > 4096 {
      RunFails(cfg, m1, t, m.request.tag, QuotedTooLong);
      QuotedRefused(cfg, m.request, m.size, got, s, QuotedTooLong, s[2..]);
    } else {
      var m' := m.(buf := got + Unit(ch));
      RunGoes(cfg, m1, t, m');
      QuotedSame(cfg, m.request, m.size, got, s, got + Unit(ch), s[2..]);
      ReadsQuote(cfg, m', s[2..]);
    }
  }

  lemma StepQuoteEnds<T>(cfg: Config<T>, m: Machine<T>)
    requires m.state == Quoted(false)
    ensures Step(cfg, m, 34) ==
            if m.buf == [] then Go(WithToken(m, Nil).(state := Args(32)))
            else if m.size + |m.buf| > cfg.maxSize then Fail(cfg, m, RequestTooLarge)
            else Go(WithToken(m, Argument(m.buf)).(buf := [], size := m.size + |m.buf|, state := Args(32)))
  {
  }

  lemma {:induction false} ReadsQuoteEnd<T>(cfg: Config<T>, m: Machine<T>, s: seq<byte>)
    requires GoodConfig(cfg) && m.state == Quoted(false) && |m.buf| <= 4096 && s != [] && s[0] == 34
    ensures Run(cfg, m, s).events == QuotedText(cfg, m.request, m.size, m.buf, s)
    decreases |s|, 2
  {
    hide Step, Run, Requests, Refuse, Tagged, Named, Arguments, Word, QuotedText, Sized, Data, QuotePart, Is;
    StepQuoteEnds(cfg, m);
    QuoteCloses(m.buf, s);
    QuotedTook(cfg, m.request, m.size, m.buf, s, s[1..]);
    SpaceIsBlank();
    if m.buf == [] {
      var m' := WithToken(m, Nil).(state := Args(32));
      RunGoes(cfg, m, s, m');
      ReadsArguments(cfg, m', s[1..]);
    } else if m.size + |m.buf| > cfg.maxSize {
      RunFails(cfg, m, s, m.request.tag, RequestTooLarge);
    } else {
      var m' := WithToken(m, Argument(m.buf)).(buf := [], size := m.size + |m.buf|, state := Args(32));
      RunGoes(cfg, m, s, m');
      ReadsArguments(cfg, m', s[1..]);
    }
  }

  // ---- Literals ---------------------------------------------------------------------------------

  ghost predicate InLength<T>(m: Machine<T>) {
    m.state.Literal? && AllDigits(m.buf) && (m.state.nonSync ==> m.buf != [])
  }

  lemma StepLengthIs<T>(cfg: Config<T>, m: Machine<T>, ch: byte)
    requires InLength(m)
    ensures Is(Digits, ch) && m.state.nonSync ==> Step(cfg, m, ch) == Fail(cfg, m, DigitAfterPlus)
    ensures Is(Digits, ch) && !m.state.nonSync && |m.buf| < 15 ==> Step(cfg, m, ch) == Go(m.(buf := m.buf + [ch]))
    ensures Is(Digits, ch) && !m.state.nonSync && |m.buf| == 15 ==> Step(cfg, m, ch) == Fail(cfg, m, TooManyDigits)
    ensures ch == 43 ==> Step(cfg, m, ch) == if m.buf == [] then Fail(cfg, m, InvalidNonSync) else Go(m.(state := Literal(true)))
    ensures !Is(Digits, ch) && ch != 43 && ch != 125 ==> Step(cfg, m, ch) == Fail(cfg, m, InvalidLiteralChar)
  {
    hide Fail, ParseU32;
  }

  lemma StepBraceIs<T>(cfg: Config<T>, m: Machine<T>)
    requires InLength(m)
    ensures Step(cfg, m, 125) ==
            if m.buf == [] then Fail(cfg, m, EmptyLiteral)
            else if Number(m.buf) >= 4_294_967_296 then Fail(cfg, m, LiteralSizeInvalid)
            else if m.size + Number(m.buf) > cfg.maxSize then Fail(cfg, m, LiteralTooLarge)
            else Go(m.(buf := [], state := LiteralSeek(Number(m.buf), m.state.nonSync)))
  {
    NumberIs(m.buf);
    hide Fail, Decimal, Number;
  }

  lemma {:induction false} ReadsLength<T>(cfg: Config<T>, m: Machine<T>, s: seq<byte>)
    requires GoodConfig(cfg) && InLength(m)
    ensures Run(cfg, m, s).events == Sized(cfg, m.request, m.size, m.buf, m.state.nonSync, s)
    decreases |s|, 4
  {
    hide Step, Run, Requests, Refuse, Tagged, Named, Arguments, Word, QuotedText, Sized, Data, LengthPart;
    var r, got, plus := m.request, m.buf, m.state.nonSync;
    if s == [] {
      CutParts(cfg.utf8, false, got, plus);
      SizedIs(cfg, r, m.size, got, plus, s);
      RunNone(cfg, m);
    } else {
      var ch := s[0];
      StepLengthIs(cfg, m, ch);
      SizedIs(cfg, r, m.size, got, plus, s);
      if !plus && Is(Digits, ch) {
        if |got| < 15 {
          RunGoes(cfg, m, s, m.(buf := got + [ch]));
          LengthTakes(got, s);
          SizedIs(cfg, r, m.size, got + [ch], plus, s[1..]);
          ReadsLength(cfg, m.(buf := got + [ch]), s[1..]);
        } else {
          RunFails(cfg, m, s, r.tag, TooManyDigits);
          LengthIsFull(got, s);
        }
      } else if ch == 43 {
        LengthPlus(got, plus, s);
        if got == [] {
          RunFails(cfg, m, s, r.tag, InvalidNonSync);
        } else {
          RunGoes(cfg, m, s, m.(state := Literal(true)));
          SizedIs(cfg, r, m.size, got, true, s[1..]);
          ReadsLength(cfg, m.(state := Literal(true)), s[1..]);
        }
      } else {
        ReadsLengthEnd(cfg, m, s);
      }
    }
  }

  lemma {:induction false} ReadsLengthEnd<T>(cfg: Config<T>, m: Machine<T>, s: seq<byte>)
    requires GoodConfig(cfg) && InLength(m) && s != [] && s[0] != 43 && (m.state.nonSync || !Is(Digits, s[0]))
    ensures Run(cfg, m, s).events == Sized(cfg, m.request, m.size, m.buf, m.state.nonSync, s)
    decreases |s|, 3
  {
    hide Step, Run, Requests, Refuse, Tagged, Named, Arguments, Word, QuotedText, Sized, Data, LengthPart, Number;
    var ch, got, plus, tag := s[0], m.buf, m.state.nonSync, m.request.tag;
    LengthEnds(got, plus, s);
    StepLengthIs(cfg, m, ch);
    StepBraceIs(cfg, m);
    SizedIs(cfg, m.request, m.size, got, plus, s);
    if ch == 125 {
      if got == [] {
        RunFails(cfg, m, s, tag, EmptyLiteral);
      } else if Number(got) >= 4_294_967_296 {
        RunFails(cfg, m, s, tag, LiteralSizeInvalid);
      } else if m.size + Number(got) > cfg.maxSize {
        RunFails(cfg, m, s, tag, LiteralTooLarge);
      } else {
        var m' := m.(buf := [], state := LiteralSeek(Number(got), plus));
        RunGoes(cfg, m, s, m');
        ReadsData(cfg, m', s[1..]);
      }
    } else if Is(Digits, ch) {
      RunFails(cfg, m, s, tag, DigitAfterPlus);
    } else {
      RunFails(cfg, m, s, tag, InvalidLiteralChar);
    }
  }

  ghost predicate Seeking<T>(cfg: Config<T>, m: Machine<T>) {
    m.state.LiteralSeek? && m.buf == [] && m.size + m.state.size <= cfg.maxSize && m.state.size < 4_294_967_296
  }

  lemma StepSeekIs<T>(cfg: Config<T>, m: Machine<T>, ch: byte)
    requires Seeking(cfg, m)
    ensures Is(LineBlanks, ch) ==> Step(cfg, m, ch) == Go(m)
    ensures !Is(LineBlanks, ch) && ch != 10 ==> Step(cfg, m, ch) == Fail(cfg, m, MissingCrlf)
    ensures ch == 10 ==>
              var prompt := if m.state.seekNonSync then None else Some(NeedsLiteral(m.state.size));
              Step(cfg, m, ch) ==
                if m.state.size > 0 then Outcome(m.(state := LiteralData(m.state.size)), prompt)
                else if m.size + 1 > cfg.maxSize then Fail(cfg, m, RequestTooLarge)
                else Outcome(WithToken(m, Nil).(size := m.size + 1, state := Args(32)), prompt)
  {
  }

  lemma {:induction false} ReadsData<T>(cfg: Config<T>, m: Machine<T>, s: seq<byte>)
    requires GoodConfig(cfg) && Seeking(cfg, m)
    ensures Run(cfg, m, s).events == Data(cfg, m.request, m.size, m.state.size, !m.state.seekNonSync, s)
    decreases |s|, 3
  {
    hide Step, Run, Requests, Refuse, Tagged, Named, Arguments, Word, QuotedText, Sized, Data, LineEndPart;
    if s == [] {
      CutParts(cfg.utf8, false, [], false);
      DataIsCutOff(cfg, m.request, m.size, m.state.size, !m.state.seekNonSync);
      RunNone(cfg, m);
    } else {
      var ch := s[0];
      StepSeekIs(cfg, m, ch);
      if Is(LineBlanks, ch) {
        LineGoes(s);
        RunGoes(cfg, m, s, m);
        DataSame(cfg, m.request, m.size, m.state.size, !m.state.seekNonSync, s, s[1..]);
        ReadsData(cfg, m, s[1..]);
      } else {
        LineEnds(s);
        if ch != 10 {
          DataRefused(cfg, m.request, m.size, m.state.size, !m.state.seekNonSync, s, MissingCrlf, s[1..]);
          RunFails(cfg, m, s, m.request.tag, MissingCrlf);
        } else if m.state.size == 0 {
          ReadsEmptyLiteral(cfg, m, s);
        } else {
          ReadsLiteral(cfg, m, s);
        }
      }
    }
  }

  /** A step that may have prompted. */
  lemma RunPrompts<T>(cfg: Config<T>, m: Machine<T>, s: seq<byte>, m': Machine<T>, sync: bool, n: nat)
    requires s != [] && Step(cfg, m, s[0]) == Outcome(m', if sync then Some(NeedsLiteral(n)) else None)
    ensures Run(cfg, m, s).events == Prompt(sync, n) + Run(cfg, m', s[1..]).events
  {
    hide Step;
  }

  lemma {:induction false} ReadsEmptyLiteral<T>(cfg: Config<T>, m: Machine<T>, s: seq<byte>)
    requires GoodConfig(cfg) && Seeking(cfg, m) && m.state.size == 0 && s != [] && s[0] == 10
    requires LineEndPart(s) == Took(true, s[1..])
    ensures Run(cfg, m, s).events == Data(cfg, m.request, m.size, 0, !m.state.seekNonSync, s)
    decreases |s|, 2
  {
    hide Step, Run, Requests, Refuse, Tagged, Named, Arguments, Word, QuotedText, Sized, Data, LineEndPart, Is;
    StepSeekIs(cfg, m, 10);
    SpaceIsBlank();
    DataEmpty(cfg, m.request, m.size, !m.state.seekNonSync, s, s[1..]);
    if m.size + 1 > cfg.maxSize {
      RunFails(cfg, m, s, m.request.tag, RequestTooLarge);
    } else {
      var m' := WithToken(m, Nil).(size := m.size + 1, state := Args(32));
      RunPrompts(cfg, m, s, m', !m.state.seekNonSync, 0);
      ReadsArguments(cfg, m', s[1..]);
    }
  }

  lemma {:induction false} DataIsCut<T>(cfg: Config<T>, m: Machine<T>, data: seq<byte>)
    requires m.state.LiteralData? && |data| < m.state.remaining
    ensures Run(cfg, m, data).events == []
    decreases |data|
  {
    if data != [] {
      var m' := m.(buf := m.buf + [data[0]], state := LiteralData(m.state.remaining - 1));
      RunGoes(cfg, m, data, m');
      DataIsCut(cfg, m', data[1..]);
    }
  }

  /** The data of a literal becomes one argument, and reading goes on after it. */
  lemma TakesData<T>(cfg: Config<T>, m: Machine<T>, data: seq<byte>, rest: seq<byte>)
    requires StateInv(cfg, m) && m.buf == [] && m.state == LiteralData(|data|)
    ensures var m' := WithToken(m, Argument(data)).(buf := [], size := m.size + |data|, state := Args(32));
            Run(cfg, m, data + rest).events == Run(cfg, m', rest).events
  {
    hide Run, Step, StateInv;
    DataIsTaken(cfg, m, data);
    RunAppend(cfg, m, data, rest);
    AppendEmpty(data);
    AppendEmpty(Run(cfg, Run(cfg, m, data).machine, rest).events);
  }

  lemma {:induction false} ReadsLiteral<T>(cfg: Config<T>, m: Machine<T>, s: seq<byte>)
    requires GoodConfig(cfg) && Seeking(cfg, m) && m.state.size > 0 && s != [] && s[0] == 10
    requires LineEndPart(s) == Took(true, s[1..])
    ensures Run(cfg, m, s).events == Data(cfg, m.request, m.size, m.state.size, !m.state.seekNonSync, s)
    decreases |s|, 2
  {
    hide Step, Run, Requests, Refuse, Tagged, Named, Arguments, Word, QuotedText, Sized, Data, LineEndPart, Is;
    var n, rest := m.state.size, s[1..];
    var m1 := m.(state := LiteralData(n));
    StepSeekIs(cfg, m, 10);
    SpaceIsBlank();
    DataTook(cfg, m.request, m.size, n, !m.state.seekNonSync, s, rest);
    RunPrompts(cfg, m, s, m1, !m.state.seekNonSync, n);
    if |rest| < n {
      DataIsCut(cfg, m1, rest);
    } else {
      var data, t := rest[..n], rest[n..];
      assert rest == data + t;
      TakesData(cfg, m1, data, t);
      ReadsArguments(cfg, WithToken(m1, Argument(data)).(buf := [], size := m.size + n, state := Args(32)), t);
    }
  }
}
