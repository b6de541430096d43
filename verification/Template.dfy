/** The template compiler and evaluator as the loops that run, proved against their meaning. */
module Template {
  import opened Basics
  import opened TemplateModel
  import opened TemplateCompiler
  import opened TemplateEval

  lemma ParseStep<T>(fromStr: string -> Option<T>, p: Parser<T>, t: Token, ts: seq<Token>)
    ensures var o := StepToken(fromStr, p, t);
            ParseTokens(fromStr, p, [t] + ts) == if o.Ok? then ParseTokens(fromStr, o.value, ts) else Err(o.error)
  {
    assert ([t] + ts)[1..] == ts;
  }

  /** Close the innermost open block by patching its opener, as the parse loop does in place. */
  method CloseBlock<T>(items: seq<Item<T>>, stack: seq<Frame>, isEach: bool, name: string)
    returns (r: Result<Parser<T>>)
    ensures r == End(Parser(items, stack), isEach, name)
  {
    if stack == [] {
      return Ok(Parser(items, stack));
    }
    var top, rest := stack[|stack| - 1], stack[..|stack| - 1];
    if top.name != name {
      return Err(EndNameMismatch);
    }
    if top.pos >= |items| {
      return Err(EndKindMismatch);
    }
    match items[top.pos] {
      case If(v, _) =>
        if !isEach {
          return Ok(Parser(items[top.pos := If(v, |items|)], rest));
        }
      case ForEach(v, _) =>
        if isEach {
          return Ok(Parser(items[top.pos := ForEach(v, |items|)], rest));
        }
      case _ =>
    }
    r := Err(EndKindMismatch);
  }

  /** Act on one tag. */
  method ParseTag<T>(fromStr: string -> Option<T>, items: seq<Item<T>>, stack: seq<Frame>, tag: Token)
    returns (r: Result<Parser<T>>)
    ensures r == StepToken(fromStr, Parser(items, stack), tag)
  {
    match tag {
      case Text(s) => r := Ok(Parser(items + [Static(s)], stack));
      case Var(name, escape) =>
        match fromStr(name) {
          case None => r := Err(InvalidVariable);
          case Some(v) => r := Ok(Parser(items + [Variable(v, escape)], stack));
        }
      case Open(isEach, name) =>
        match fromStr(name) {
          case None => r := Err(InvalidVariable);
          case Some(v) =>
            var item: Item<T> := if isEach then ForEach(v, 0) else If(v, 0);
            r := Ok(Parser(items + [item], stack + [Frame(name, |items|)]));
        }
      case Close(isEach, name) => r := CloseBlock(items, stack, isEach, name);
      case Bad(e) => r := Err(e);
    }
  }

  /** One pass over the text, with a stack of open blocks. */
  method Parse<T>(fromStr: string -> Option<T>, template: string) returns (r: Result<seq<Item<T>>>)
    ensures r == Compile(fromStr, template)
  {
    var rest, items, stack := template, [], [];
    hide StepToken, ParseTokens, Lex, Trim, LexTag;
    while true
      invariant Compile(fromStr, template) == ParseTokens(fromStr, Parser(items, stack), Lex(rest))
      decreases |rest|
    {
      var open := FindPair(rest, '{');
      var start := if open.Some? then rest[..open.value] else rest;
      ghost var tail := LexAfter(rest);
      LexSplits(rest);
      if start != "" {
        ParseText(fromStr, Parser(items, stack), start, tail);
        items := items + [Static(start)];
      } else {
        AppendEmpty(tail);
      }
      if open.None? {
        break;
      }
      var inner := rest[open.value + 2..];
      var close := FindPair(inner, '}');
      if close.None? {
        ParseStep(fromStr, Parser(items, stack), Bad(UnmatchedOpen), []);
        BadFails(fromStr, Parser(items, stack), UnmatchedOpen);
        AppendEmpty(tail);
        return Err(UnmatchedOpen);
      }
      var tag := LexTag(Trim(inner[..close.value]));
      rest := inner[close.value + 2..];
      ParseStep(fromStr, Parser(items, stack), tag, Lex(rest));
      var step := ParseTag(fromStr, items, stack, tag);
      match step {
        case Err(e) => return Err(e);
        case Ok(p) => items, stack := p.items, p.stack;
      }
    }
    ParseEnd(fromStr, Parser(items, stack));
    r := if stack == [] then Ok(items) else Err(UnclosedBlock);
  }

  lemma ParseText<T>(fromStr: string -> Option<T>, p: Parser<T>, s: string, tail: seq<Token>)
    requires s != ""
    ensures ParseTokens(fromStr, p, LexText(s) + tail)
         == ParseTokens(fromStr, Parser(p.items + [Static(s)], p.stack), tail)
  {
    ParseStep(fromStr, p, Text(s), tail);
  }

  lemma BadFails<T>(fromStr: string -> Option<T>, p: Parser<T>, e: ParseError)
    ensures StepToken(fromStr, p, Bad(e)) == Err(e)
  {
  }

  lemma ParseEnd<T>(fromStr: string -> Option<T>, p: Parser<T>)
    ensures ParseTokens(fromStr, p, []) == if p.stack == [] then Ok(p.items) else Err(UnclosedBlock)
  {
  }

  method WriteEscaped(result: string, input: string) returns (out: string)
    ensures out == result + HtmlEscape(input)
  {
    out := result;
    for k := 0 to |input|
      invariant out + HtmlEscape(input[k..]) == result + HtmlEscape(input)
    {
      assert input[k..][1..] == input[k + 1..];
      AppendAssoc(out, EscapeChar(input[k]), HtmlEscape(input[k + 1..]));
      out := out + EscapeChar(input[k]);
    }
    AppendEmpty(out);
  }

  method Write(result: string, value: string, escape: bool) returns (out: string)
    ensures out == result + Show(value, escape)
  {
    if escape {
      out := WriteEscaped(result, value);
    } else {
      out := result + value;
    }
  }

  /** The item at `i` prints something for the entry, and says where to go on. */
  lemma NextEntryItem<T>(items: seq<Item<T>>, i: nat, end: nat, entry: map<T, string>, before: string)
    requires i < end <= |items| && Nested(items, i, end)
    ensures var next := EntryNext(items, i, end, entry);
            before + EntryPrints(items[i], entry) + EntryFrom(items, next, end, entry) == before + EntryFrom(items, i, end, entry)
  {
    hide EntryNext, EntryPrints, Nested;
    AppendAssoc(before, EntryPrints(items[i], entry), EntryFrom(items, EntryNext(items, i, end, entry), end, entry));
  }

  /** The body of an `each` block for one entry. */
  method EvalEntry<T(==)>(items: seq<Item<T>>, start: nat, end: nat, entry: map<T, string>, before: string)
    returns (result: string)
    requires start <= end <= |items| && Nested(items, start, end)
    ensures result == before + EntryFrom(items, start, end, entry)
  {
    hide Show, HtmlEscape, EntryFrom, Nested;
    result := before;
    var pos := start;
    while pos < end
      invariant start <= pos <= end && Nested(items, pos, end)
      invariant result + EntryFrom(items, pos, end, entry) == before + EntryFrom(items, start, end, entry)
      decreases end - pos
    {
      NextEntryItem(items, pos, end, entry, result);
      AppendEmpty(result);
      match items[pos] {
        case Static(s) =>
          result, pos := result + s, pos + 1;
        case Variable(v, escape) =>
          if v in entry {
            result := Write(result, entry[v], escape);
          }
          pos := pos + 1;
        case If(v, skip) =>
          pos := if v in entry then pos + 1 else skip;
        case ForEach(_, _) =>
          pos := pos + 1;
      }
    }
    NoMoreItems(items, end, entry);
    AppendEmpty(result);
  }

  lemma NoMoreItems<T>(items: seq<Item<T>>, end: nat, entry: map<T, string>)
    requires end <= |items| && Nested(items, end, end)
    ensures EntryFrom(items, end, end, entry) == ""
  {
  }

  method EvalEntries<T(==)>(items: seq<Item<T>>, start: nat, end: nat, entries: seq<map<T, string>>, before: string)
    returns (result: string)
    requires start <= end <= |items| && Nested(items, start, end)
    ensures result == before + EntriesFrom(items, start, end, entries)
  {
    result := before;
    for k := 0 to |entries|
      invariant result + EntriesFrom(items, start, end, entries[k..]) == before + EntriesFrom(items, start, end, entries)
    {
      assert entries[k..][1..] == entries[k + 1..];
      AppendAssoc(result, EntryFrom(items, start, end, entries[k]), EntriesFrom(items, start, end, entries[k + 1..]));
      result := EvalEntry(items, start, end, entries[k], result);
    }
    AppendEmpty(result);
  }

  /** One item at the top level: what it adds to the output, and the index to go on at. */
  method EvalItem<T(==)>(items: seq<Item<T>>, idx: nat, vars: map<T, Value<T>>, before: string)
    returns (result: string, next: nat)
    requires idx < |items| && Nested(items, 0, |items|)
    ensures result == before + Prints(items, idx, vars) && next == NextIndex(items, idx, vars)
  {
    result, next := before, idx + 1;
    AppendEmpty(before);
    if IsBlock(items[idx]) { NestedInside(items, 0, idx, |items|); }
    hide Nested;
    match items[idx] {
      case Static(s) =>
        result := result + s;
      case Variable(v, escape) =>
        if v in vars && vars[v].Single? {
          result := Write(result, vars[v].value, escape);
        }
      case If(v, end) =>
        if v !in vars {
          next := end;
        }
      case ForEach(v, end) =>
        if v in vars && vars[v].Block? {
          result := EvalEntries(items, idx + 1, end, vars[v].entries, result);
        }
        next := end;
    }
  }

  /** The evaluator's loop: an index into the code that only moves forward. */
  method Eval<T(==)>(items: seq<Item<T>>, vars: map<T, Value<T>>) returns (result: string)
    requires Nested(items, 0, |items|)
    ensures result == EvalFrom(items, 0, vars)
  {
    result := "";
    var idx := 0;
    AppendEmpty(EvalFrom(items, 0, vars));
    while idx < |items|
      invariant 0 <= idx <= |items|
      invariant result + EvalFrom(items, idx, vars) == EvalFrom(items, 0, vars)
      decreases |items| - idx
    {
      AppendAssoc(result, Prints(items, idx, vars), EvalFrom(items, NextIndex(items, idx, vars), vars));
      result, idx := EvalItem(items, idx, vars, result);
    }
    AppendEmpty(result);
  }
}
