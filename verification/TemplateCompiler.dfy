/** The compiler accepts exactly the texts that denote a tree, and emits exactly its code. */
module TemplateCompiler {
  import opened Basics
  import opened TemplateModel

  /** The tokens of a text after its leading static part. */
  ghost function LexAfter(text: string): seq<Token> {
    match FindPair(text, '{')
    case None => []
    case Some(i) =>
      var inner := text[i + 2..];
      match FindPair(inner, '}')
      case None => [Bad(UnmatchedOpen)]
      case Some(j) => [LexTag(Trim(inner[..j]))] + Lex(inner[j + 2..])
  }

  lemma LexSplits(text: string)
    ensures var open := FindPair(text, '{');
            Lex(text) == LexText(if open.Some? then text[..open.value] else text) + LexAfter(text)
  {
    AppendEmpty(LexText(text));
  }

  lemma ParseCons<T>(fromStr: string -> Option<T>, p: Parser<T>, t: Token, ts: seq<Token>, p': Parser<T>)
    requires StepToken(fromStr, p, t) == Ok(p')
    ensures ParseTokens(fromStr, p, [t] + ts) == ParseTokens(fromStr, p', ts)
  {
    assert ([t] + ts)[1..] == ts;
  }

  /** Compiling the tokens of a tree appends its code and leaves the block stack as it was. */
  lemma {:induction false} TreeCompiles<T>(
    fromStr: string -> Option<T>, p: Parser<T>, f: Forest<T>, top: bool, rest: seq<Token>)
    requires Proper(f, top) && Resolved(fromStr, f) && (top ==> p.stack == [])
    ensures ParseTokens(fromStr, p, Tokens(f) + rest)
         == ParseTokens(fromStr, Parser(p.items + Code(f, |p.items|), p.stack), rest)
    decreases f, 1
  {
    match f
    case Nil =>
      assert Tokens(f) + rest == rest && p.items + [] == p.items;
    case TextNode(s, next) =>
      NodeCompiles(fromStr, p, Text(s), Static(s), next, top, rest);
    case VarNode(name, v, escape, next) =>
      NodeCompiles(fromStr, p, Var(name, escape), Variable(v, escape), next, top, rest);
    case BlockNode(_, _, _, _, _) =>
      BlockCompiles(fromStr, p, f, top, rest);
    case Stray(isEach, name, next) =>
      AppendAssoc([Close(isEach, name)], Tokens(next), rest);
      ParseCons(fromStr, p, Close(isEach, name), Tokens(next) + rest, p);
      TreeCompiles(fromStr, p, next, top, rest);
  }

  lemma {:induction false} NodeCompiles<T>(
    fromStr: string -> Option<T>, p: Parser<T>, t: Token, item: Item<T>, next: Forest<T>, top: bool, rest: seq<Token>)
    requires Proper(next, top) && Resolved(fromStr, next) && (top ==> p.stack == [])
    requires StepToken(fromStr, p, t) == Ok(Emit(p, item))
    ensures ParseTokens(fromStr, p, [t] + Tokens(next) + rest)
         == ParseTokens(fromStr, Parser(p.items + ([item] + Code(next, |p.items| + 1)), p.stack), rest)
    decreases next, 2
  {
    ParseCons(fromStr, p, t, Tokens(next) + rest, Emit(p, item));
    hide StepToken, ParseTokens;
    TreeCompiles(fromStr, Emit(p, item), next, top, rest);
    AppendAssoc([t], Tokens(next), rest);
    AppendAssoc(p.items, [item], Code(next, |p.items| + 1));
  }

  lemma {:induction false} BlockCompiles<T>(
    fromStr: string -> Option<T>, p: Parser<T>, f: Forest<T>, top: bool, rest: seq<Token>)
    requires f.BlockNode? && Proper(f, top) && Resolved(fromStr, f) && (top ==> p.stack == [])
    ensures ParseTokens(fromStr, p, Tokens(f) + rest)
         == ParseTokens(fromStr, Parser(p.items + Code(f, |p.items|), p.stack), rest)
    decreases f, 0
  {
    hide ParseTokens, Begin, End;
    var BlockNode(isEach, name, v, body, next) := f;
    var p1 := Begin(p, isEach, name, v);
    BeginEmits(p, isEach, name, v);
    var inner := Code(body, |p1.items|);
    var p2 := Parser(p1.items + inner, p1.stack);
    var end := |p.items| + 1 + |inner|;
    var head: Item<T> := if isEach then ForEach(v, end) else If(v, end);
    var p3 := Parser(p.items + [head] + inner, p.stack);
    var after := Tokens(next) + rest;
    var tail := [Close(isEach, name)] + after;
    EndPatches(p, isEach, name, v, inner);
    AppendNested([Open(isEach, name)], Tokens(body), [Close(isEach, name)], Tokens(next), rest);
    ParseCons(fromStr, p, Open(isEach, name), Tokens(body) + tail, p1);
    TreeCompiles(fromStr, p1, body, false, tail);
    ParseCons(fromStr, p2, Close(isEach, name), after, p3);
    TreeCompiles(fromStr, p3, next, top, rest);
    AppendAssoc4(p.items, [head], inner, Code(next, end));
  }

  lemma BeginEmits<T>(p: Parser<T>, isEach: bool, name: string, v: T)
    ensures |Begin(p, isEach, name, v).items| == |p.items| + 1
  {
  }

  /** Closing the block just opened patches its end and nothing else. */
  lemma EndPatches<T>(p: Parser<T>, isEach: bool, name: string, v: T, inner: seq<Item<T>>)
    ensures var p1, end := Begin(p, isEach, name, v), |p.items| + 1 + |inner|;
            End(Parser(p1.items + inner, p1.stack), isEach, name) ==
            Ok(Parser(p.items + [if isEach then ForEach(v, end) else If(v, end)] + inner, p.stack))
    ensures forall isEach', name' :: isEach' != isEach || name' != name ==>
              End(Parser(Begin(p, isEach, name, v).items + inner, Begin(p, isEach, name, v).stack), isEach', name').Err?
  {
    var p1 := Begin(p, isEach, name, v);
    var items := p1.items + inner;
    var end := |p.items| + 1 + |inner|;
    var head: Item<T> := if isEach then ForEach(v, end) else If(v, end);
    assert items[|p.items| := head] == p.items + [head] + inner;
    assert p1.stack[..|p1.stack| - 1] == p.stack;
  }

  // ---- Recursive descent: the tree of a text ---------------------------------------------------

  datatype Built<+T> = Built(tree: Forest<T>, rest: seq<Token>)

  /** The longest tree the tokens start with, and what is left over. */
  function Build<T>(fromStr: string -> Option<T>, ts: seq<Token>, top: bool): (b: Built<T>)
    ensures |b.rest| <= |ts|
    decreases |ts|
  {
    if ts == [] then Built(Nil, [])
    else match ts[0]
      case Text(s) =>
        var b := Build(fromStr, ts[1..], top);
        Built(TextNode(s, b.tree), b.rest)
      case Var(name, escape) =>
        (match fromStr(name)
         case None => Built(Nil, ts)
         case Some(v) =>
           var b := Build(fromStr, ts[1..], top);
           Built(VarNode(name, v, escape, b.tree), b.rest))
      case Open(isEach, name) =>
        (match fromStr(name)
         case None => Built(Nil, ts)
         case Some(v) =>
           var body := Build(fromStr, ts[1..], false);
           if body.rest == [] || body.rest[0] != Close(isEach, name) then Built(Nil, ts)
           else
             var next := Build(fromStr, body.rest[1..], top);
             Built(BlockNode(isEach, name, v, body.tree, next.tree), next.rest))
      case Close(isEach, name) =>
        if top then
          var b := Build(fromStr, ts[1..], top);
          Built(Stray(isEach, name, b.tree), b.rest)
        else Built(Nil, ts)
      case Bad(_) => Built(Nil, ts)
  }

  lemma {:induction false} BuildIsProper<T>(fromStr: string -> Option<T>, ts: seq<Token>, top: bool)
    ensures var f := Build(fromStr, ts, top).tree;
            Proper(f, top) && Resolved(fromStr, f)
    decreases |ts|
  {
    if ts != [] {
      if ts[0].Open? {
        var body := Build(fromStr, ts[1..], false);
        BuildIsProper(fromStr, ts[1..], false);
        if body.rest != [] {
          BuildIsProper(fromStr, body.rest[1..], top);
        }
      } else {
        BuildIsProper(fromStr, ts[1..], top);
      }
    }
  }

  lemma {:induction false} BuildIsTree<T>(fromStr: string -> Option<T>, ts: seq<Token>, top: bool)
    ensures var b := Build(fromStr, ts, top);
            Tokens(b.tree) + b.rest == ts
    decreases |ts|
  {
    var b := Build(fromStr, ts, top);
    if ts == [] || b.tree.Nil? {
      assert Tokens(b.tree) + b.rest == ts;
    } else if ts[0].Open? {
      var Open(isEach, name) := ts[0];
      var body := Build(fromStr, ts[1..], false);
      var next := Build(fromStr, body.rest[1..], top);
      assert b == Built(BlockNode(isEach, name, fromStr(name).value, body.tree, next.tree), next.rest);
      assert body.rest[0] == Close(isEach, name);
      hide Build;
      BuildIsTree(fromStr, ts[1..], false);
      BuildIsTree(fromStr, body.rest[1..], top);
      HeadTail(ts);
      HeadTail(body.rest);
      AppendNested([ts[0]], Tokens(body.tree), [Close(isEach, name)], Tokens(next.tree), next.rest);
    } else {
      var rest := Build(fromStr, ts[1..], top);
      assert Tokens(b.tree) == [ts[0]] + Tokens(rest.tree) && b.rest == rest.rest;
      hide Build, Tokens;
      BuildIsTree(fromStr, ts[1..], top);
      HeadTail(ts);
      AppendAssoc([ts[0]], Tokens(rest.tree), rest.rest);
    }
  }

  /** A block whose body recursive descent has read must go on with its own closer. */
  lemma BlockCloses<T>(fromStr: string -> Option<T>, p: Parser<T>, isEach: bool, name: string, v: T, ts: seq<Token>)
    requires ParseTokens(fromStr, Begin(p, isEach, name, v), ts).Ok?
    requires var rest := Build(fromStr, ts, false).rest;
             rest == [] || rest[0].Close?
    ensures var body := Build(fromStr, ts, false);
            var p1 := Begin(p, isEach, name, v);
            var r := End(Parser(p1.items + Code(body.tree, |p1.items|), p1.stack), isEach, name);
            && body.rest != [] && body.rest[0] == Close(isEach, name)
            && r.Ok? && ParseTokens(fromStr, r.value, body.rest[1..]).Ok?
  {
    var p1 := Begin(p, isEach, name, v);
    var body := Build(fromStr, ts, false);
    BuildIsTree(fromStr, ts, false);
    BuildIsProper(fromStr, ts, false);
    TreeCompiles(fromStr, p1, body.tree, false, body.rest);
    var inner := Code(body.tree, |p1.items|);
    EndPatches(p, isEach, name, v, inner);
    hide Build, Code, Tokens, Proper, Resolved, Begin, End;
    assert ParseTokens(fromStr, Parser(p1.items + inner, p1.stack), body.rest).Ok?;
    BeginIsOpen(p, isEach, name, v);
  }

  lemma BeginIsOpen<T>(p: Parser<T>, isEach: bool, name: string, v: T)
    ensures Begin(p, isEach, name, v).stack != []
  {
  }

  /** If the compiler succeeds, recursive descent stops only at the end, or at the closer of an outer block. */
  lemma {:induction false} BuildReachesEnd<T>(fromStr: string -> Option<T>, p: Parser<T>, ts: seq<Token>, top: bool)
    requires ParseTokens(fromStr, p, ts).Ok? && (top ==> p.stack == [])
    ensures var rest := Build(fromStr, ts, top).rest;
            rest == [] || (!top && rest[0].Close?)
    decreases |ts|, 1
  {
    if ts != [] {
      match ts[0]
      case Text(s) => BuildReachesEnd(fromStr, Emit(p, Static(s)), ts[1..], top);
      case Var(name, escape) => BuildReachesEnd(fromStr, StepToken(fromStr, p, ts[0]).value, ts[1..], top);
      case Open(isEach, name) => BlockReachesEnd(fromStr, p, ts, top);
      case Close(isEach, name) =>
        if top {
          BuildReachesEnd(fromStr, p, ts[1..], top);
        }
      case Bad(_) =>
    }
  }

  lemma {:induction false} BlockReachesEnd<T>(fromStr: string -> Option<T>, p: Parser<T>, ts: seq<Token>, top: bool)
    requires ts != [] && ts[0].Open? && ParseTokens(fromStr, p, ts).Ok? && (top ==> p.stack == [])
    ensures var rest := Build(fromStr, ts, top).rest;
            rest == [] || (!top && rest[0].Close?)
    decreases |ts|, 0
  {
    var isEach, name := ts[0].isEach, ts[0].name;
    assert fromStr(name).Some?;
    var v := fromStr(name).value;
    var p1 := Begin(p, isEach, name, v);
    assert ParseTokens(fromStr, p1, ts[1..]).Ok?;
    var body := Build(fromStr, ts[1..], false);
    hide Begin, End, Code, ParseTokens;
    BuildReachesEnd(fromStr, p1, ts[1..], false);
    BlockCloses(fromStr, p, isEach, name, v, ts[1..]);
    var p2 := End(Parser(p1.items + Code(body.tree, |p1.items|), p1.stack), isEach, name).value;
    EndRestores(p, isEach, name, v, Code(body.tree, |p1.items|));
    BuildReachesEnd(fromStr, p2, body.rest[1..], top);
  }

  lemma EndRestores<T>(p: Parser<T>, isEach: bool, name: string, v: T, inner: seq<Item<T>>)
    ensures var p1 := Begin(p, isEach, name, v);
            var r := End(Parser(p1.items + inner, p1.stack), isEach, name);
            r.Ok? && r.value.stack == p.stack
  {
    hide Begin, End;
    EndPatches(p, isEach, name, v, inner);
  }

  /** `f` is a way to read the text as a nested template. */
  ghost predicate IsTree<T>(fromStr: string -> Option<T>, text: string, f: Forest<T>) {
    Proper(f, true) && Resolved(fromStr, f) && Tokens(f) == Lex(text)
  }

  /** The tree recursive descent gives for a text. */
  function Tree<T>(fromStr: string -> Option<T>, text: string): Forest<T> {
    Build(fromStr, Lex(text), true).tree
  }

  /** A text that denotes a tree compiles, to the code of that tree. */
  lemma TreeIsCompiled<T>(fromStr: string -> Option<T>, text: string, f: Forest<T>)
    requires IsTree(fromStr, text, f)
    ensures Compile(fromStr, text) == Ok(Code(f, 0))
  {
    var p: Parser<T> := Parser([], []);
    TreeCompiles(fromStr, p, f, true, []);
    assert Tokens(f) + [] == Tokens(f);
    assert [] + Code(f, 0) == Code(f, 0);
  }

  /** A text compiles if and only if it denotes a tree; recursive descent finds it. */
  lemma CompilesIffTree<T>(fromStr: string -> Option<T>, text: string)
    ensures Compile(fromStr, text).Ok? <==> IsTree(fromStr, text, Tree(fromStr, text))
    ensures Compile(fromStr, text).Ok? <==> exists f :: IsTree(fromStr, text, f)
    ensures Compile(fromStr, text).Ok? ==> Compile(fromStr, text).value == Code(Tree(fromStr, text), 0)
  {
    var f := Tree(fromStr, text);
    if Compile(fromStr, text).Ok? {
      BuildReachesEnd(fromStr, Parser([], []), Lex(text), true);
      BuildIsTree(fromStr, Lex(text), true);
      BuildIsProper(fromStr, Lex(text), true);
      assert Tokens(f) + [] == Tokens(f);
      assert IsTree(fromStr, text, f);
    }
    forall f: Forest<T> | IsTree(fromStr, text, f)
      ensures Compile(fromStr, text) == Ok(Code(f, 0))
    {
      TreeIsCompiled(fromStr, text, f);
    }
  }

  // ---- Which error is reported ------------------------------------------------------------------

  /** A block that is open. */
  datatype Opened = Opened(isEach: bool, name: string)

  /** What is wrong with the next token, given the blocks that are open, the innermost last. */
  function Offence<T>(fromStr: string -> Option<T>, open: seq<Opened>, t: Token): Option<ParseError> {
    if t.Bad? then Some(t.error)
    else if (t.Var? || t.Open?) && fromStr(t.name).None? then Some(InvalidVariable)
    else if t.Close? && open != [] then
      var top := open[|open| - 1];
      if top.name != t.name then Some(EndNameMismatch)
      else if top.isEach != t.isEach then Some(EndKindMismatch)
      else None
    else None
  }

  function OpenAfter(open: seq<Opened>, t: Token): seq<Opened> {
    if t.Open? then open + [Opened(t.isEach, t.name)]
    else if t.Close? && open != [] then open[..|open| - 1]
    else open
  }

  /** The first thing that is wrong, or a block left open at the end. */
  function FirstError<T>(fromStr: string -> Option<T>, open: seq<Opened>, ts: seq<Token>): Option<ParseError>
    decreases |ts|
  {
    if ts == [] then if open == [] then None else Some(UnclosedBlock)
    else
      var e := Offence(fromStr, open, ts[0]);
      if e.Some? then e else FirstError(fromStr, OpenAfter(open, ts[0]), ts[1..])
  }

  /** The stack names the open blocks, and each entry points at the item that opened it. */
  ghost predicate Remembers<T>(p: Parser<T>, open: seq<Opened>) {
    && |p.stack| == |open|
    && forall i :: 0 <= i < |open| ==>
         && p.stack[i].name == open[i].name && p.stack[i].pos < |p.items|
         && (if open[i].isEach then p.items[p.stack[i].pos].ForEach? else p.items[p.stack[i].pos].If?)
  }

  lemma StepRemembers<T>(fromStr: string -> Option<T>, p: Parser<T>, open: seq<Opened>, t: Token)
    requires Remembers(p, open)
    ensures var r, e := StepToken(fromStr, p, t), Offence(fromStr, open, t);
            if e.Some? then r == Err(e.value) else r.Ok? && Remembers(r.value, OpenAfter(open, t))
  {
    if t.Close? && open != [] {
      assert p.stack[|open| - 1].name == open[|open| - 1].name;
    }
  }

  lemma {:induction false} ErrorIsFirst<T>(fromStr: string -> Option<T>, p: Parser<T>, open: seq<Opened>, ts: seq<Token>)
    requires Remembers(p, open)
    ensures var r, e := ParseTokens(fromStr, p, ts), FirstError(fromStr, open, ts);
            if e.Some? then r == Err(e.value) else r.Ok?
    decreases |ts|
  {
    hide StepToken, Offence, OpenAfter, Remembers;
    if ts == [] {
      StackIsOpen(p, open);
    } else {
      StepRemembers(fromStr, p, open, ts[0]);
      if Offence(fromStr, open, ts[0]).None? {
        ErrorIsFirst(fromStr, StepToken(fromStr, p, ts[0]).value, OpenAfter(open, ts[0]), ts[1..]);
      }
    }
  }

  lemma StackIsOpen<T>(p: Parser<T>, open: seq<Opened>)
    requires Remembers(p, open)
    ensures p.stack == [] <==> open == []
  {
  }

  /** A text that does not compile reports the first thing that is wrong with its tokens. */
  lemma CompileReportsFirst<T>(fromStr: string -> Option<T>, text: string)
    ensures var r, e := Compile(fromStr, text), FirstError(fromStr, [], Lex(text));
            if e.Some? then r == Err(e.value) else r.Ok?
  {
    hide Lex, ParseTokens, FirstError;
    var p: Parser<T> := Parser([], []);
    ErrorIsFirst(fromStr, p, [], Lex(text));
  }

  // ---- Jumps ----------------------------------------------------------------------------------

  predicate IsBlock<T>(item: Item<T>) {
    item.If? || item.ForEach?
  }

  function BlockEnd<T>(item: Item<T>): nat
    requires IsBlock(item)
  {
    match item
    case If(_, end) => end
    case ForEach(_, end) => end
  }

  /** Every block in `items[lo..hi]` ends after it starts, inside the range, and blocks nest. */
  ghost predicate Nested<T>(items: seq<Item<T>>, lo: nat, hi: nat)
    requires lo <= hi <= |items|
  {
    && (forall i {:trigger items[i]} :: lo <= i < hi && IsBlock(items[i]) ==> i < BlockEnd(items[i]) <= hi)
    && (forall i, j :: lo <= i < j < hi && IsBlock(items[i]) && IsBlock(items[j]) && j < BlockEnd(items[i])
          ==> BlockEnd(items[j]) <= BlockEnd(items[i]))
  }

  /** Wherever the code of a tree is placed, its blocks nest within it. */
  lemma {:induction false} CodeIsNested<T>(items: seq<Item<T>>, lo: nat, hi: nat, f: Forest<T>)
    requires lo <= hi <= |items| && items[lo..hi] == Code(f, lo)
    ensures Nested(items, lo, hi)
    decreases f
  {
    match f
    case Nil =>
    case TextNode(s, next) =>
      assert items[lo] == Static(s) && items[lo + 1..hi] == Code(next, lo + 1);
      CodeIsNested(items, lo + 1, hi, next);
      NestedAfter(items, lo, hi);
    case VarNode(_, v, escape, next) =>
      assert items[lo] == Variable(v, escape) && items[lo + 1..hi] == Code(next, lo + 1);
      CodeIsNested(items, lo + 1, hi, next);
      NestedAfter(items, lo, hi);
    case Stray(_, _, next) => CodeIsNested(items, lo, hi, next);
    case BlockNode(_, _, _, body, next) =>
      BlockPlaced(items, lo, hi, f);
      hide Nested, Code;
      var end := lo + 1 + |Code(body, lo + 1)|;
      CodeIsNested(items, lo + 1, end, body);
      CodeIsNested(items, end, hi, next);
      NestedBlock(items, lo, end, hi);
  }

  lemma NestedAfter<T>(items: seq<Item<T>>, lo: nat, hi: nat)
    requires lo < hi <= |items| && !IsBlock(items[lo]) && Nested(items, lo + 1, hi)
    ensures Nested(items, lo, hi)
  {
  }

  lemma NestedBlock<T>(items: seq<Item<T>>, lo: nat, end: nat, hi: nat)
    requires lo < end <= hi <= |items| && IsBlock(items[lo]) && BlockEnd(items[lo]) == end
    requires Nested(items, lo + 1, end) && Nested(items, end, hi)
    ensures Nested(items, lo, hi)
  {
  }

  lemma BlockPlaced<T>(items: seq<Item<T>>, lo: nat, hi: nat, f: Forest<T>)
    requires f.BlockNode? && lo <= hi <= |items| && items[lo..hi] == Code(f, lo)
    ensures var end := lo + 1 + |Code(f.body, lo + 1)|;
            && lo < end <= hi
            && items[lo] == (if f.isEach then ForEach(f.v, end) else If(f.v, end))
            && items[lo + 1..end] == Code(f.body, lo + 1)
            && items[end..hi] == Code(f.next, end)
  {
    var inner := Code(f.body, lo + 1);
    var end := lo + 1 + |inner|;
    var all := Code(f, lo);
    assert all[0] == items[lo];
    assert |all| == 1 + |inner| + |Code(f.next, end)| == hi - lo;
    assert all[1..1 + |inner|] == inner && all[1 + |inner|..] == Code(f.next, end);
    SliceOfSlice(items, lo, hi, 1, 1 + |inner|);
    SliceOfSlice(items, lo, hi, 1 + |inner|, hi - lo);
  }

  lemma NestedSuffix<T>(items: seq<Item<T>>, lo: nat, mid: nat, hi: nat)
    requires lo <= mid <= hi <= |items| && Nested(items, lo, hi)
    ensures Nested(items, mid, hi)
  {
  }

  lemma NestedInside<T>(items: seq<Item<T>>, lo: nat, i: nat, hi: nat)
    requires lo <= i < hi <= |items| && Nested(items, lo, hi) && IsBlock(items[i])
    ensures i < BlockEnd(items[i]) <= hi && Nested(items, i + 1, BlockEnd(items[i]))
  {
  }
}
