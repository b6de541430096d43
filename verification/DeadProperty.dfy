/**
 Properties a WebDAV client stores without the server knowing them (sections 4 and 9.2 of
 RFC 4918): a flat list of start tags, end tags and text, searched and edited by counting depth.
 The lists are read here as what they stand for, a sequence of element trees.
 */
module DeadProperty {
  import opened Basics

  datatype ElementTag = ElementTag(name: string, attrs: Option<string>)

  datatype Tag = ElementStart(element: ElementTag) | ElementEnd | Text(text: string)

  // ---- Trees and balance ------------------------------------------------------------------------

  datatype Node = Element(element: ElementTag, children: seq<Node>) | TextNode(text: string)

  function FlatNode(n: Node): seq<Tag> {
    match n
    case Element(element, children) => [ElementStart(element)] + (Flat(children) + [ElementEnd])
    case TextNode(text) => [Text(text)]
  }

  function Flat(f: seq<Node>): seq<Tag> {
    if f == [] then [] else FlatNode(f[0]) + Flat(f[1..])
  }

  /** Starting `depth` elements deep, every end tag closes an element and all are closed at the end. */
  predicate Closes(depth: nat, s: seq<Tag>)
    decreases |s|
  {
    if s == [] then depth == 0
    else if s[0].ElementStart? then Closes(depth + 1, s[1..])
    else if s[0].ElementEnd? then depth > 0 && Closes(depth - 1, s[1..])
    else Closes(depth, s[1..])
  }

  predicate Balanced(s: seq<Tag>) {
    Closes(0, s)
  }

  // ---- What the operations compute --------------------------------------------------------------

  /** What removal keeps, from a depth and whether it is inside a removed element. */
  function Kept(name: string, depth: int, remove: bool, s: seq<Tag>): seq<Tag>
    decreases |s|
  {
    if s == [] then [] else
      match s[0]
      case ElementStart(tag) =>
        var remove' := remove || (depth == 0 && tag.name == name);
        (if remove' then [] else [s[0]]) + Kept(name, depth + 1, remove', s[1..])
      case ElementEnd =>
        (if remove then [] else [s[0]]) + Kept(name, depth - 1, remove && depth != 1, s[1..])
      case Text(_) =>
        (if remove then [] else [s[0]]) + Kept(name, depth, remove, s[1..])
  }

  /** The tags up to the end of the element a search is inside of. */
  function Collect(depth: nat, s: seq<Tag>): seq<Tag>
    requires depth > 0
    decreases |s|
  {
    if s == [] then []
    else if s[0].ElementStart? then [s[0]] + Collect(depth + 1, s[1..])
    else if s[0].ElementEnd? then if depth == 1 then [] else [s[0]] + Collect(depth - 1, s[1..])
    else [s[0]] + Collect(depth, s[1..])
  }

  function FindFrom(needle: string, depth: nat, s: seq<Tag>): Option<seq<Tag>>
    decreases |s|
  {
    if s == [] then None
    else if s[0].ElementStart? then
      if depth == 0 && s[0].element.name == needle then Some(Collect(1, s[1..]))
      else FindFrom(needle, depth + 1, s[1..])
    else if s[0].ElementEnd? then FindFrom(needle, if depth == 0 then 0 else depth - 1, s[1..])
    else FindFrom(needle, depth, s[1..])
  }

  function Removed(name: string, s: seq<Tag>): seq<Tag> {
    Kept(name, 0, false, s)
  }

  function Added(element: ElementTag, values: seq<Tag>, s: seq<Tag>): seq<Tag> {
    s + [ElementStart(element)] + values + [ElementEnd]
  }

  function Found(needle: string, s: seq<Tag>): Option<seq<Tag>> {
    FindFrom(needle, 0, s)
  }

  // ---- The same on trees ------------------------------------------------------------------------

  predicate Named(name: string, n: Node) {
    n.Element? && n.element.name == name
  }

  function Without(name: string, f: seq<Node>): seq<Node> {
    if f == [] then [] else (if Named(name, f[0]) then [] else [f[0]]) + Without(name, f[1..])
  }

  /** The contents of the first top-level element of a name. */
  function First(name: string, f: seq<Node>): Option<seq<Node>> {
    if f == [] then None
    else if Named(name, f[0]) then Some(f[0].children)
    else First(name, f[1..])
  }

  function FlatOption(o: Option<seq<Node>>): Option<seq<Tag>> {
    match o
    case None => None
    case Some(f) => Some(Flat(f))
  }

  // ---- Reading a balanced list as trees ---------------------------------------------------------

  lemma FlatCons(n: Node, f: seq<Node>)
    ensures Flat([n] + f) == FlatNode(n) + Flat(f)
  {
    assert ([n] + f)[1..] == f;
  }

  lemma TailOf<T>(x: T, s: seq<T>)
    ensures ([x] + s)[0] == x && ([x] + s)[1..] == s && [x] + s != []
  {
  }

  /** The list of an element, then what follows it. */
  lemma FlatElement(element: ElementTag, children: seq<Node>, rest: seq<Tag>)
    ensures FlatNode(Element(element, children)) + rest == [ElementStart(element)] + (Flat(children) + ([ElementEnd] + rest))
  {
    hide Flat;
    AppendAssoc(Flat(children), [ElementEnd], rest);
    AppendAssoc([ElementStart(element)], Flat(children) + [ElementEnd], rest);
  }

  lemma {:induction false} Unstack(depth: nat, s: seq<Tag>) returns (f: seq<Node>, rest: seq<Tag>)
    requires depth > 0 && Closes(depth, s)
    ensures s == Flat(f) + ([ElementEnd] + rest) && Closes(depth - 1, rest) && |rest| < |s|
    decreases |s|
  {
    HeadTail(s);
    if s[0].ElementEnd? {
      f, rest := [], s[1..];
      AppendEmpty([ElementEnd] + rest);
    } else if s[0].ElementStart? {
      var children, r := Unstack(depth + 1, s[1..]);
      var more;
      more, rest := Unstack(depth, r);
      var n := Element(s[0].element, children);
      f := [n] + more;
      FlatElement(s[0].element, children, Flat(more) + ([ElementEnd] + rest));
      FlatCons(n, more);
      AppendAssoc(FlatNode(n), Flat(more), [ElementEnd] + rest);
    } else {
      var more;
      more, rest := Unstack(depth, s[1..]);
      f := [TextNode(s[0].text)] + more;
      FlatCons(TextNode(s[0].text), more);
      AppendAssoc([s[0]], Flat(more), [ElementEnd] + rest);
    }
  }

  /** A balanced list is the list of some trees. */
  lemma {:induction false} BalancedIsFlat(s: seq<Tag>) returns (f: seq<Node>)
    requires Balanced(s)
    ensures s == Flat(f)
    decreases |s|
  {
    if s == [] {
      f := [];
    } else {
      HeadTail(s);
      if s[0].ElementStart? {
        var children, r := Unstack(1, s[1..]);
        var more := BalancedIsFlat(r);
        var n := Element(s[0].element, children);
        f := [n] + more;
        FlatElement(s[0].element, children, r);
        FlatCons(n, more);
      } else {
        var more := BalancedIsFlat(s[1..]);
        f := [TextNode(s[0].text)] + more;
        FlatCons(TextNode(s[0].text), more);
      }
    }
  }

  lemma {:induction false} FlatCloses(depth: nat, f: seq<Node>, rest: seq<Tag>)
    ensures Closes(depth, Flat(f) + rest) == Closes(depth, rest)
    decreases f
  {
    if f == [] {
      AppendEmpty(rest);
    } else {
      AppendAssoc(FlatNode(f[0]), Flat(f[1..]), rest);
      NodeCloses(depth, f[0], Flat(f[1..]) + rest);
      FlatCloses(depth, f[1..], rest);
    }
  }

  lemma {:induction false} NodeCloses(depth: nat, n: Node, rest: seq<Tag>)
    ensures Closes(depth, FlatNode(n) + rest) == Closes(depth, rest)
    decreases n
  {
    match n
    case Element(element, children) =>
      var tail := [ElementEnd] + rest;
      FlatElement(element, children, rest);
      TailOf(ElementStart(element), Flat(children) + tail);
      FlatCloses(depth + 1, children, tail);
      TailOf(ElementEnd, rest);
    case TextNode(text) => TailOf(Text(text), rest);
  }

  lemma FlatIsBalanced(f: seq<Node>)
    ensures Balanced(Flat(f))
  {
    FlatCloses(0, f, []);
    AppendEmpty(Flat(f));
  }

  // ---- Removing ---------------------------------------------------------------------------------

  /** Inside a removed element everything goes. */
  lemma {:induction false} FlatDropped(name: string, depth: int, f: seq<Node>, rest: seq<Tag>)
    requires depth > 0
    ensures Kept(name, depth, true, Flat(f) + rest) == Kept(name, depth, true, rest)
    decreases f
  {
    if f == [] {
      AppendEmpty(rest);
    } else {
      AppendAssoc(FlatNode(f[0]), Flat(f[1..]), rest);
      NodeDropped(name, depth, f[0], Flat(f[1..]) + rest);
      FlatDropped(name, depth, f[1..], rest);
    }
  }

  lemma {:induction false} NodeDropped(name: string, depth: int, n: Node, rest: seq<Tag>)
    requires depth > 0
    ensures Kept(name, depth, true, FlatNode(n) + rest) == Kept(name, depth, true, rest)
    decreases n
  {
    match n
    case Element(element, children) =>
      var tail := [ElementEnd] + rest;
      FlatElement(element, children, rest);
      TailOf(ElementStart(element), Flat(children) + tail);
      FlatDropped(name, depth + 1, children, tail);
      TailOf(ElementEnd, rest);
    case TextNode(text) => TailOf(Text(text), rest);
  }

  /** Below the top level, and outside a removed element, everything stays. */
  lemma {:induction false} FlatKept(name: string, depth: int, f: seq<Node>, rest: seq<Tag>)
    requires depth > 0
    ensures Kept(name, depth, false, Flat(f) + rest) == Flat(f) + Kept(name, depth, false, rest)
    decreases f
  {
    if f == [] {
      AppendEmpty(rest);
      AppendEmpty(Kept(name, depth, false, rest));
    } else {
      AppendAssoc(FlatNode(f[0]), Flat(f[1..]), rest);
      NodeKept(name, depth, f[0], Flat(f[1..]) + rest);
      FlatKept(name, depth, f[1..], rest);
      AppendAssoc(FlatNode(f[0]), Flat(f[1..]), Kept(name, depth, false, rest));
    }
  }

  lemma {:induction false} NodeKept(name: string, depth: int, n: Node, rest: seq<Tag>)
    requires depth >= 0 && (depth == 0 ==> !Named(name, n))
    ensures Kept(name, depth, false, FlatNode(n) + rest) == FlatNode(n) + Kept(name, depth, false, rest)
    decreases n
  {
    match n
    case Element(element, children) =>
      var tail := [ElementEnd] + rest;
      FlatElement(element, children, rest);
      TailOf(ElementStart(element), Flat(children) + tail);
      FlatKept(name, depth + 1, children, tail);
      TailOf(ElementEnd, rest);
      FlatElement(element, children, Kept(name, depth, false, rest));
    case TextNode(text) => TailOf(Text(text), rest);
  }

  lemma NamedIsDropped(name: string, n: Node, rest: seq<Tag>)
    requires Named(name, n)
    ensures Kept(name, 0, false, FlatNode(n) + rest) == Kept(name, 0, false, rest)
  {
    var tail := [ElementEnd] + rest;
    FlatElement(n.element, n.children, rest);
    TailOf(ElementStart(n.element), Flat(n.children) + tail);
    FlatDropped(name, 1, n.children, tail);
    TailOf(ElementEnd, rest);
    AppendEmpty(Kept(name, 0, false, rest));
  }

  /** Removal takes away exactly the top-level elements of the name. */
  lemma {:induction false} RemovedMeans(name: string, f: seq<Node>)
    ensures Removed(name, Flat(f)) == Flat(Without(name, f))
    decreases f
  {
    hide Kept, FlatNode;
    if f == [] {
      NothingKept(name);
    } else {
      var rest := Without(name, f[1..]);
      RemovedMeans(name, f[1..]);
      if Named(name, f[0]) {
        NamedIsDropped(name, f[0], Flat(f[1..]));
        AppendEmpty(rest);
      } else {
        NodeKept(name, 0, f[0], Flat(f[1..]));
        FlatCons(f[0], rest);
      }
    }
  }

  lemma NothingKept(name: string)
    ensures Kept(name, 0, false, []) == []
  {
  }

  // ---- Finding ----------------------------------------------------------------------------------

  lemma {:induction false} FlatCollected(depth: nat, f: seq<Node>, rest: seq<Tag>)
    requires depth > 0
    ensures Collect(depth, Flat(f) + rest) == Flat(f) + Collect(depth, rest)
    decreases f
  {
    if f == [] {
      AppendEmpty(rest);
      AppendEmpty(Collect(depth, rest));
    } else {
      AppendAssoc(FlatNode(f[0]), Flat(f[1..]), rest);
      NodeCollected(depth, f[0], Flat(f[1..]) + rest);
      FlatCollected(depth, f[1..], rest);
      AppendAssoc(FlatNode(f[0]), Flat(f[1..]), Collect(depth, rest));
    }
  }

  lemma {:induction false} NodeCollected(depth: nat, n: Node, rest: seq<Tag>)
    requires depth > 0
    ensures Collect(depth, FlatNode(n) + rest) == FlatNode(n) + Collect(depth, rest)
    decreases n
  {
    match n
    case Element(element, children) =>
      var tail := [ElementEnd] + rest;
      FlatElement(element, children, rest);
      TailOf(ElementStart(element), Flat(children) + tail);
      FlatCollected(depth + 1, children, tail);
      TailOf(ElementEnd, rest);
      FlatElement(element, children, Collect(depth, rest));
    case TextNode(text) => TailOf(Text(text), rest);
  }

  lemma {:induction false} FlatSkipped(needle: string, depth: nat, f: seq<Node>, rest: seq<Tag>)
    requires depth > 0
    ensures FindFrom(needle, depth, Flat(f) + rest) == FindFrom(needle, depth, rest)
    decreases f
  {
    if f == [] {
      AppendEmpty(rest);
    } else {
      AppendAssoc(FlatNode(f[0]), Flat(f[1..]), rest);
      NodeSkipped(needle, depth, f[0], Flat(f[1..]) + rest);
      FlatSkipped(needle, depth, f[1..], rest);
    }
  }

  lemma {:induction false} NodeSkipped(needle: string, depth: nat, n: Node, rest: seq<Tag>)
    requires depth == 0 ==> !Named(needle, n)
    ensures FindFrom(needle, depth, FlatNode(n) + rest) == FindFrom(needle, depth, rest)
    decreases n
  {
    match n
    case Element(element, children) =>
      var tail := [ElementEnd] + rest;
      FlatElement(element, children, rest);
      TailOf(ElementStart(element), Flat(children) + tail);
      FlatSkipped(needle, depth + 1, children, tail);
      TailOf(ElementEnd, rest);
    case TextNode(text) => TailOf(Text(text), rest);
  }

  lemma NamedIsFound(needle: string, n: Node, rest: seq<Tag>)
    requires Named(needle, n)
    ensures FindFrom(needle, 0, FlatNode(n) + rest) == Some(Flat(n.children))
  {
    var tail := [ElementEnd] + rest;
    FlatElement(n.element, n.children, rest);
    TailOf(ElementStart(n.element), Flat(n.children) + tail);
    FlatCollected(1, n.children, tail);
    TailOf(ElementEnd, rest);
    AppendEmpty(Flat(n.children));
  }

  /** The search finds the contents of the first top-level element of the name. */
  lemma {:induction false} FoundMeans(needle: string, f: seq<Node>)
    ensures Found(needle, Flat(f)) == FlatOption(First(needle, f))
    decreases f
  {
    hide FlatNode;
    if f != [] {
      if Named(needle, f[0]) {
        NamedIsFound(needle, f[0], Flat(f[1..]));
      } else {
        NodeSkipped(needle, 0, f[0], Flat(f[1..]));
        FoundMeans(needle, f[1..]);
      }
    }
  }

  // ---- What a property update does --------------------------------------------------------------

  lemma {:induction false} FirstOfWithout(name: string, other: string, f: seq<Node>)
    ensures First(other, Without(name, f)) == if other == name then None else First(other, f)
    decreases f
  {
    if f != [] {
      var rest := Without(name, f[1..]);
      FirstOfWithout(name, other, f[1..]);
      TailOf(f[0], rest);
      AppendEmpty(rest);
    }
  }

  lemma {:induction false} FirstOfAppend(name: string, f: seq<Node>, g: seq<Node>)
    ensures First(name, f + g) == if First(name, f).Some? then First(name, f) else First(name, g)
    decreases f
  {
    if f == [] {
      AppendEmpty(g);
    } else {
      assert (f + g)[1..] == f[1..] + g;
      FirstOfAppend(name, f[1..], g);
    }
  }

  lemma {:induction false} FlatAppend(f: seq<Node>, g: seq<Node>)
    ensures Flat(f + g) == Flat(f) + Flat(g)
    decreases f
  {
    if f == [] {
      AppendEmpty(g);
      AppendEmpty(Flat(g));
    } else {
      assert (f + g)[1..] == f[1..] + g;
      FlatAppend(f[1..], g);
      AppendAssoc(FlatNode(f[0]), Flat(f[1..]), Flat(g));
    }
  }

  /** After a removal the name is gone, other names are as before, and the list is still balanced. */
  lemma RemoveThenFind(name: string, other: string, s: seq<Tag>)
    requires Balanced(s)
    ensures Balanced(Removed(name, s))
    ensures Found(other, Removed(name, s)) == if other == name then None else Found(other, s)
  {
    hide Balanced, Removed, Found, Flat, First, Without;
    var f := BalancedIsFlat(s);
    RemovedMeans(name, f);
    FlatIsBalanced(Without(name, f));
    FoundMeans(other, Without(name, f));
    FoundMeans(other, f);
    FirstOfWithout(name, other, f);
  }

  lemma AddedIsFlat(element: ElementTag, f: seq<Node>, values: seq<Node>)
    ensures Added(element, Flat(values), Flat(f)) == Flat(f + [Element(element, values)])
  {
    var n := Element(element, values);
    FlatAppend(f, [n]);
    FlatCons(n, []);
    AppendEmpty([n]);
    AppendEmpty(FlatNode(n));
    AppendAssoc4(Flat(f), [ElementStart(element)], Flat(values), [ElementEnd]);
  }

  /** An added element is found, unless an earlier one of its name is; other names are as before. */
  lemma AddThenFind(element: ElementTag, values: seq<Tag>, other: string, s: seq<Tag>)
    requires Balanced(s) && Balanced(values)
    ensures Balanced(Added(element, values, s))
    ensures Found(other, Added(element, values, s)) ==
              if other == element.name && Found(other, s).None? then Some(values) else Found(other, s)
  {
    hide Balanced, Added, Found, Flat;
    var f := BalancedIsFlat(s);
    var g := BalancedIsFlat(values);
    var n := Element(element, g);
    AddedIsFlat(element, f, g);
    FlatIsBalanced(f + [n]);
    FoundMeans(other, f + [n]);
    FoundMeans(other, f);
    FirstOfAppend(other, f, [n]);
  }

  /** Setting a property, which removes and then adds it, makes a search return exactly the new contents. */
  lemma SetThenFind(element: ElementTag, values: seq<Tag>, other: string, s: seq<Tag>)
    requires Balanced(s) && Balanced(values)
    ensures var set_ := Added(element, values, Removed(element.name, s));
            Balanced(set_) && Found(other, set_) == if other == element.name then Some(values) else Found(other, s)
  {
    hide Balanced, Added, Found, Removed;
    RemoveThenFind(element.name, other, s);
    AddThenFind(element, values, other, Removed(element.name, s));
  }

  // ---- Sizes ------------------------------------------------------------------------------------

  /** The bytes of a character in UTF-8. */
  function CharBytes(c: char): nat {
    if c as int < 0x80 then 1 else if c as int < 0x800 then 2 else if c as int < 0x1_0000 then 3 else 4
  }

  function TextBytes(s: string): nat {
    if s == "" then 0 else TextBytes(s[..|s| - 1]) + CharBytes(s[|s| - 1])
  }

  function ElementSize(e: ElementTag): nat {
    TextBytes(e.name) + (if e.attrs.Some? then TextBytes(e.attrs.value) else 0)
  }

  function TagSize(t: Tag): nat {
    match t
    case ElementStart(element) => ElementSize(element)
    case ElementEnd => 1
    case Text(text) => TextBytes(text)
  }

  function Size(s: seq<Tag>): nat {
    if s == [] then 0 else Size(s[..|s| - 1]) + TagSize(s[|s| - 1])
  }

  lemma {:induction false} SizeAppend(a: seq<Tag>, b: seq<Tag>)
    ensures Size(a + b) == Size(a) + Size(b)
    decreases |b|
  {
    if b == [] {
      AppendEmpty(a);
    } else {
      assert (a + b)[..|a + b| - 1] == a + b[..|b| - 1];
      SizeAppend(a, b[..|b| - 1]);
    }
  }

  /** The top-level elements of a name. */
  function Only(name: string, f: seq<Node>): seq<Node> {
    if f == [] then [] else (if Named(name, f[0]) then [f[0]] else []) + Only(name, f[1..])
  }

  /** A removal frees exactly the size of the elements it takes away. */
  lemma {:induction false} RemovedSize(name: string, f: seq<Node>)
    ensures Size(Removed(name, Flat(f))) + Size(Flat(Only(name, f))) == Size(Flat(f))
    decreases f
  {
    hide Removed, FlatNode, Size;
    RemovedMeans(name, f);
    if f == [] {
      assert Size([]) == 0 by { SizeAppend([], []); AppendEmpty<Tag>([]); }
    } else {
      RemovedSize(name, f[1..]);
      RemovedMeans(name, f[1..]);
      SizeAppend(FlatNode(f[0]), Flat(f[1..]));
      var rest, only := Without(name, f[1..]), Only(name, f[1..]);
      AppendEmpty(rest);
      AppendEmpty(only);
      FlatCons(f[0], rest);
      FlatCons(f[0], only);
      SizeAppend(FlatNode(f[0]), Flat(rest));
      SizeAppend(FlatNode(f[0]), Flat(only));
    }
  }

  // ---- The operations ---------------------------------------------------------------------------

  class DeadProperty {
    var tags: seq<Tag>

    constructor ()
      ensures tags == []
    {
      tags := [];
    }

    method FindTag(needle: string) returns (r: Option<seq<Tag>>)
      ensures r == Found(needle, tags)
    {
      var depth: nat := 0;
      var collected: seq<Tag> := [];
      var foundTag := false;
      for i := 0 to |tags|
        invariant if foundTag then depth > 0 else collected == []
        invariant Found(needle, tags) == if foundTag then Some(collected + Collect(depth, tags[i..]))
                                         else FindFrom(needle, depth, tags[i..])
      {
        var tag := tags[i];
        assert tags[i..][0] == tag && tags[i..][1..] == tags[i + 1..];
        if foundTag {
          CollectStep(collected, depth, tags[i..]);
        }
        match tag
        case ElementStart(start) =>
          if depth == 0 && start.name == needle {
            AppendEmpty(Collect(1, tags[i + 1..]));
            foundTag := true;
          } else if foundTag {
            collected := collected + [tag];
          }
          depth := depth + 1;
        case ElementEnd =>
          if foundTag {
            if depth == 1 {
              return Some(collected);
            }
            collected := collected + [tag];
          }
          depth := if depth == 0 then 0 else depth - 1;
        case Text(_) =>
          if foundTag {
            collected := collected + [tag];
          }
      }
      AppendEmpty(collected);
      return if foundTag then Some(collected) else None;
    }

    method RemoveElement(element: ElementTag)
      modifies this
      ensures tags == Removed(element.name, old(tags))
    {
      var kept: seq<Tag> := [];
      var depth := 0;
      var remove := false;
      for i := 0 to |tags|
        invariant tags == old(tags)
        invariant Removed(element.name, tags) == kept + Kept(element.name, depth, remove, tags[i..])
      {
        assert tags[i..][0] == tags[i] && tags[i..][1..] == tags[i + 1..];
        var retain: bool;
        match tags[i] {
          case ElementStart(tag) =>
            if depth == 0 && !remove && tag.name == element.name {
              remove := true;
            }
            depth := depth + 1;
            retain := !remove;
          case ElementEnd =>
            depth := depth - 1;
            retain := !remove;
            if remove && depth == 0 {
              remove := false;
            }
          case Text(_) =>
            retain := !remove;
        }
        var item := if retain then [tags[i]] else [];
        AppendAssoc(kept, item, Kept(element.name, depth, remove, tags[i + 1..]));
        kept := kept + item;
      }
      AppendEmpty(kept);
      tags := kept;
    }

    method AddElement(element: ElementTag, values: seq<Tag>)
      modifies this
      ensures tags == Added(element, values, old(tags))
    {
      tags := tags + [ElementStart(element)];
      tags := tags + values;
      tags := tags + [ElementEnd];
    }

    method TotalSize() returns (size: nat)
      ensures size == Size(tags)
    {
      size := 0;
      for i := 0 to |tags|
        invariant size == Size(tags[..i])
      {
        assert tags[..i + 1][..i] == tags[..i];
        size := size + TagSize(tags[i]);
      }
      assert tags[..|tags|] == tags;
    }
  }

  lemma CollectStep(collected: seq<Tag>, depth: nat, s: seq<Tag>)
    requires depth > 0 && s != []
    ensures var d := if s[0].ElementStart? then depth + 1 else if s[0].ElementEnd? then depth - 1 else depth;
            collected + Collect(depth, s) == if d == 0 then collected else collected + [s[0]] + Collect(d, s[1..])
  {
    AppendEmpty(collected);
  }
}
