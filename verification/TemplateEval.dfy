/** What a template prints: a recursive meaning on the tree, and the jumping evaluator on the code. */
module TemplateEval {
  import opened Basics
  import opened TemplateModel
  import opened TemplateCompiler

  function EscapeChar(c: char): string {
    if c == '&' then "&amp;"
    else if c == '<' then "&lt;"
    else if c == '>' then "&gt;"
    else if c == '"' then "&quot;"
    else if c == '\'' then "&#39;"
    else [c]
  }

  function HtmlEscape(s: string): string {
    if s == "" then "" else EscapeChar(s[0]) + HtmlEscape(s[1..])
  }

  function Show(s: string, escape: bool): string {
    if escape then HtmlEscape(s) else s
  }

  // ---- Meaning of the tree -------------------------------------------------------------------

  /** Inside an `each` entry: names are looked up in the entry, and a nested `each` is not iterated. */
  function RenderEntry<T>(f: Forest<T>, entry: map<T, string>): string {
    match f
    case Nil => ""
    case TextNode(s, next) => s + RenderEntry(next, entry)
    case VarNode(_, v, escape, next) =>
      (if v in entry then Show(entry[v], escape) else "") + RenderEntry(next, entry)
    case BlockNode(isEach, _, v, body, next) =>
      (if isEach || v in entry then RenderEntry(body, entry) else "") + RenderEntry(next, entry)
    case Stray(_, _, next) => RenderEntry(next, entry)
  }

  function RenderEntries<T>(f: Forest<T>, entries: seq<map<T, string>>): string {
    if entries == [] then "" else RenderEntry(f, entries[0]) + RenderEntries(f, entries[1..])
  }

  function Render<T>(f: Forest<T>, vars: map<T, Value<T>>): string {
    match f
    case Nil => ""
    case TextNode(s, next) => s + Render(next, vars)
    case VarNode(_, v, escape, next) =>
      (if v in vars && vars[v].Single? then Show(vars[v].value, escape) else "") + Render(next, vars)
    case BlockNode(isEach, _, v, body, next) =>
      (if v !in vars then ""
       else if !isEach then Render(body, vars)
       else if vars[v].Block? then RenderEntries(body, vars[v].entries)
       else "") + Render(next, vars)
    case Stray(_, _, next) => Render(next, vars)
  }

  // ---- Meaning of the code: print something, then fall through or jump forward ----------------

  /** What an item prints for an entry. */
  function EntryPrints<T>(item: Item<T>, entry: map<T, string>): string {
    match item
    case Static(s) => s
    case Variable(v, escape) => if v in entry then Show(entry[v], escape) else ""
    case _ => ""
  }

  ghost function EntryNext<T>(items: seq<Item<T>>, i: nat, end: nat, entry: map<T, string>): (next: nat)
    requires i < end <= |items| && Nested(items, i, end)
    ensures i < next <= end && Nested(items, next, end)
  {
    match items[i]
    case If(v, skip) => if v in entry then i + 1 else skip
    case _ => i + 1
  }

  ghost function EntryFrom<T>(items: seq<Item<T>>, i: nat, end: nat, entry: map<T, string>): string
    requires i <= end <= |items| && Nested(items, i, end)
    decreases end - i
  {
    if i == end then ""
    else EntryPrints(items[i], entry) + EntryFrom(items, EntryNext(items, i, end, entry), end, entry)
  }

  ghost function EntriesFrom<T>(items: seq<Item<T>>, i: nat, end: nat, entries: seq<map<T, string>>): string
    requires i <= end <= |items| && Nested(items, i, end)
  {
    if entries == [] then ""
    else EntryFrom(items, i, end, entries[0]) + EntriesFrom(items, i, end, entries[1..])
  }

  /** What the item at `i` prints at the top level: for `each`, its body once for every entry. */
  ghost function Prints<T>(items: seq<Item<T>>, i: nat, vars: map<T, Value<T>>): string
    requires i < |items| && Nested(items, 0, |items|)
  {
    match items[i]
    case Static(s) => s
    case Variable(v, escape) => if v in vars && vars[v].Single? then Show(vars[v].value, escape) else ""
    case If(_, _) => ""
    case ForEach(v, end) =>
      if v in vars && vars[v].Block? then EntriesFrom(items, i + 1, end, vars[v].entries) else ""
  }

  ghost function NextIndex<T>(items: seq<Item<T>>, i: nat, vars: map<T, Value<T>>): (next: nat)
    requires i < |items| && Nested(items, 0, |items|)
    ensures i < next <= |items|
  {
    match items[i]
    case If(v, end) => if v in vars then i + 1 else end
    case ForEach(_, end) => end
    case _ => i + 1
  }

  ghost function EvalFrom<T>(items: seq<Item<T>>, i: nat, vars: map<T, Value<T>>): string
    requires i <= |items| && Nested(items, 0, |items|)
    decreases |items| - i
  {
    if i == |items| then ""
    else Prints(items, i, vars) + EvalFrom(items, NextIndex(items, i, vars), vars)
  }

  // ---- The code prints what the tree means ----------------------------------------------------

  lemma {:induction false} EntryIsRendered<T>(
    items: seq<Item<T>>, lo: nat, hi: nat, end: nat, f: Forest<T>, entry: map<T, string>)
    requires lo <= hi <= end <= |items| && Nested(items, lo, end) && items[lo..hi] == Code(f, lo)
    ensures EntryFrom(items, lo, end, entry) == RenderEntry(f, entry) + EntryFrom(items, hi, end, entry)
    decreases f
  {
    match f
    case Nil =>
    case TextNode(s, next) =>
      assert items[lo] == Static(s) && items[lo + 1..hi] == Code(next, lo + 1);
      EntryIsRendered(items, lo + 1, hi, end, next, entry);
      AppendAssoc(s, RenderEntry(next, entry), EntryFrom(items, hi, end, entry));
    case VarNode(_, v, escape, next) =>
      assert items[lo] == Variable(v, escape) && items[lo + 1..hi] == Code(next, lo + 1);
      EntryIsRendered(items, lo + 1, hi, end, next, entry);
      AppendAssoc(if v in entry then Show(entry[v], escape) else "", RenderEntry(next, entry), EntryFrom(items, hi, end, entry));
    case Stray(_, _, next) =>
      EntryIsRendered(items, lo, hi, end, next, entry);
    case BlockNode(_, _, _, _, _) =>
      EntryBlockIsRendered(items, lo, hi, end, f, entry);
  }

  lemma {:induction false} EntryBlockIsRendered<T>(
    items: seq<Item<T>>, lo: nat, hi: nat, end: nat, f: Forest<T>, entry: map<T, string>)
    requires f.BlockNode?
    requires lo <= hi <= end <= |items| && Nested(items, lo, end) && items[lo..hi] == Code(f, lo)
    ensures EntryFrom(items, lo, end, entry) == RenderEntry(f, entry) + EntryFrom(items, hi, end, entry)
    decreases f, 0
  {
    hide Nested, EntryFrom, Code;
    var BlockNode(isEach, _, v, body, next) := f;
    BlockPlaced(items, lo, hi, f);
    var mid := lo + 1 + |Code(body, lo + 1)|;
    NestedSuffix(items, lo, lo + 1, end);
    NestedSuffix(items, lo, mid, end);
    NestedSuffix(items, lo, hi, end);
    EntryJumps(items, lo, end, entry);
    EntryIsRendered(items, mid, hi, end, next, entry);
    var after := EntryFrom(items, hi, end, entry);
    if isEach || v in entry {
      EntryIsRendered(items, lo + 1, mid, end, body, entry);
      AppendAssoc(RenderEntry(body, entry), RenderEntry(next, entry), after);
    } else {
      AppendEmpty(RenderEntry(next, entry));
    }
  }

  /** A block item prints nothing itself for an entry. */
  lemma EntryJumps<T>(items: seq<Item<T>>, i: nat, end: nat, entry: map<T, string>)
    requires i < end <= |items| && Nested(items, i, end) && IsBlock(items[i])
    ensures var next := EntryNext(items, i, end, entry);
            EntryFrom(items, i, end, entry) == EntryFrom(items, next, end, entry)
  {
    AppendEmpty(EntryFrom(items, EntryNext(items, i, end, entry), end, entry));
  }

  lemma {:induction false} EntriesAreRendered<T>(
    items: seq<Item<T>>, lo: nat, end: nat, f: Forest<T>, entries: seq<map<T, string>>)
    requires lo <= end <= |items| && Nested(items, lo, end) && items[lo..end] == Code(f, lo)
    ensures EntriesFrom(items, lo, end, entries) == RenderEntries(f, entries)
    decreases |entries|
  {
    if entries != [] {
      EntryIsRendered(items, lo, end, end, f, entries[0]);
      assert RenderEntry(f, entries[0]) + "" == RenderEntry(f, entries[0]);
      EntriesAreRendered(items, lo, end, f, entries[1..]);
    }
  }

  lemma {:induction false} CodeIsRendered<T>(
    items: seq<Item<T>>, lo: nat, hi: nat, f: Forest<T>, vars: map<T, Value<T>>)
    requires lo <= hi <= |items| && Nested(items, 0, |items|) && items[lo..hi] == Code(f, lo)
    ensures EvalFrom(items, lo, vars) == Render(f, vars) + EvalFrom(items, hi, vars)
    decreases f
  {
    match f
    case Nil =>
    case TextNode(s, next) =>
      assert items[lo] == Static(s) && items[lo + 1..hi] == Code(next, lo + 1);
      CodeIsRendered(items, lo + 1, hi, next, vars);
      AppendAssoc(s, Render(next, vars), EvalFrom(items, hi, vars));
    case VarNode(_, v, escape, next) =>
      assert items[lo] == Variable(v, escape) && items[lo + 1..hi] == Code(next, lo + 1);
      CodeIsRendered(items, lo + 1, hi, next, vars);
      AppendAssoc(if v in vars && vars[v].Single? then Show(vars[v].value, escape) else "", Render(next, vars), EvalFrom(items, hi, vars));
    case Stray(_, _, next) =>
      CodeIsRendered(items, lo, hi, next, vars);
    case BlockNode(_, _, _, _, next) =>
      BlockIsRendered(items, lo, hi, f, vars);
  }

  lemma {:induction false} BlockIsRendered<T>(
    items: seq<Item<T>>, lo: nat, hi: nat, f: Forest<T>, vars: map<T, Value<T>>)
    requires f.BlockNode?
    requires lo <= hi <= |items| && Nested(items, 0, |items|) && items[lo..hi] == Code(f, lo)
    ensures EvalFrom(items, lo, vars) == Render(f, vars) + EvalFrom(items, hi, vars)
    decreases f, 0
  {
    hide Nested, EvalFrom, Code;
    var BlockNode(isEach, _, v, body, next) := f;
    BlockPlaced(items, lo, hi, f);
    var mid := lo + 1 + |Code(body, lo + 1)|;
    CodeIsRendered(items, mid, hi, next, vars);
    var after := EvalFrom(items, hi, vars);
    if isEach {
      EachPrints(items, lo, mid, body, vars);
      var inner := if v in vars && vars[v].Block? then RenderEntries(body, vars[v].entries) else "";
      AppendAssoc(inner, Render(next, vars), after);
    } else {
      IfJumps(items, lo, vars);
      if v in vars {
        CodeIsRendered(items, lo + 1, mid, body, vars);
        AppendAssoc(Render(body, vars), Render(next, vars), after);
      } else {
        AppendEmpty(Render(next, vars));
      }
    }
  }

  lemma IfJumps<T>(items: seq<Item<T>>, i: nat, vars: map<T, Value<T>>)
    requires i < |items| && Nested(items, 0, |items|) && items[i].If?
    ensures EvalFrom(items, i, vars) == EvalFrom(items, NextIndex(items, i, vars), vars)
  {
    AppendEmpty(EvalFrom(items, NextIndex(items, i, vars), vars));
  }

  lemma EachPrints<T>(items: seq<Item<T>>, i: nat, end: nat, body: Forest<T>, vars: map<T, Value<T>>)
    requires i < end <= |items| && Nested(items, 0, |items|)
    requires items[i].ForEach? && items[i].eachEnd == end && items[i + 1..end] == Code(body, i + 1)
    ensures var v := items[i].variable;
            var inner := if v in vars && vars[v].Block? then RenderEntries(body, vars[v].entries) else "";
            EvalFrom(items, i, vars) == inner + EvalFrom(items, end, vars)
  {
    NestedInside(items, 0, i, |items|);
    hide Nested;
    var v := items[i].variable;
    if v in vars && vars[v].Block? {
      EntriesAreRendered(items, i + 1, end, body, vars[v].entries);
    }
  }

  /**
   Every text that compiles is a nested template, its code has properly nested forward jumps, and
   the jumping evaluator prints what the tree means.
   */
  lemma CompiledTemplateMeansItsTree<T>(fromStr: string -> Option<T>, text: string, vars: map<T, Value<T>>)
    requires Compile(fromStr, text).Ok?
    ensures var items, f := Compile(fromStr, text).value, Tree(fromStr, text);
            && IsTree(fromStr, text, f)
            && Nested(items, 0, |items|)
            && EvalFrom(items, 0, vars) == Render(f, vars)
  {
    CompilesIffTree(fromStr, text);
    var items, f := Compile(fromStr, text).value, Tree(fromStr, text);
    assert items[0..|items|] == Code(f, 0);
    CodeIsNested(items, 0, |items|, f);
    CodeIsRendered(items, 0, |items|, f, vars);
    assert Render(f, vars) + "" == Render(f, vars);
  }
}
