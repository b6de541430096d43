/**
 The operations on dead properties when tags do not match: every tag list is a sequence of element
 trees cut by end tags that close nothing, and then by start tags that are never closed. A search
 passes over the former; a removal goes one level further down after each of them.
 */
module DeadPropertyAny {
  import opened Basics
  import opened DeadProperty

  datatype Shape =
    | Whole(f: seq<Node>)
    | Stray(f: seq<Node>, rest: Shape)
    | Unclosed(f: seq<Node>, element: ElementTag, rest: Shape)

  function Tags(sh: Shape): seq<Tag> {
    match sh
    case Whole(f) => Flat(f)
    case Stray(f, rest) => Flat(f) + ([ElementEnd] + Tags(rest))
    case Unclosed(f, element, rest) => Flat(f) + ([ElementStart(element)] + Tags(rest))
  }

  /** No end tag is left over. */
  predicate Open(sh: Shape) {
    match sh
    case Whole(_) => true
    case Stray(_, _) => false
    case Unclosed(_, _, rest) => Open(rest)
  }

  predicate WellShaped(sh: Shape) {
    match sh
    case Whole(_) => true
    case Stray(_, rest) => WellShaped(rest)
    case Unclosed(_, _, rest) => Open(rest)
  }

  // ---- Every list has a shape -------------------------------------------------------------------

  lemma OpenIsWellShaped(sh: Shape)
    requires Open(sh)
    ensures WellShaped(sh)
  {
  }

  function Onto(n: Node, sh: Shape): Shape {
    sh.(f := [n] + sh.f)
  }

  lemma TagsOnto(n: Node, sh: Shape)
    ensures Tags(Onto(n, sh)) == FlatNode(n) + Tags(sh) && WellShaped(Onto(n, sh)) == WellShaped(sh)
  {
    hide Flat, FlatNode;
    FlatCons(n, sh.f);
    match sh {
      case Whole(f) =>
      case Stray(f, rest) => AppendAssoc(FlatNode(n), Flat(f), [ElementEnd] + Tags(rest));
      case Unclosed(f, element, rest) => AppendAssoc(FlatNode(n), Flat(f), [ElementStart(element)] + Tags(rest));
    }
  }

  /** A start tag before a list: it is closed by the first end tag left over, if there is one. */
  function Opened(element: ElementTag, sh: Shape): Shape {
    match sh
    case Stray(f, rest) => Onto(Element(element, f), rest)
    case _ => Unclosed([], element, sh)
  }

  lemma TagsOpened(element: ElementTag, sh: Shape)
    requires WellShaped(sh)
    ensures Tags(Opened(element, sh)) == [ElementStart(element)] + Tags(sh) && WellShaped(Opened(element, sh))
  {
    hide Flat, Onto;
    match sh {
      case Stray(f, rest) =>
        FlatElement(element, f, Tags(rest));
        TagsOnto(Element(element, f), rest);
      case _ => FlatNothing([ElementStart(element)] + Tags(sh));
    }
  }

  lemma FlatNothing(s: seq<Tag>)
    ensures Flat([]) + s == s
  {
    AppendEmpty(s);
  }

  lemma {:induction false} EveryListHasShape(s: seq<Tag>) returns (sh: Shape)
    ensures WellShaped(sh) && Tags(sh) == s
    decreases |s|
  {
    hide Opened, Onto;
    if s == [] {
      sh := Whole([]);
    } else {
      HeadTail(s);
      var rest := EveryListHasShape(s[1..]);
      match s[0] {
        case ElementStart(element) =>
          TagsOpened(element, rest);
          sh := Opened(element, rest);
        case ElementEnd =>
          FlatNothing([ElementEnd] + Tags(rest));
          sh := Stray([], rest);
        case Text(text) =>
          TagsOnto(TextNode(text), rest);
          sh := Onto(TextNode(text), rest);
      }
    }
  }

  // ---- Searching --------------------------------------------------------------------------------

  /** The contents of the first element of a name outside the others, which an element left open has to the end. */
  function FirstIn(name: string, sh: Shape): Option<seq<Tag>> {
    if First(name, sh.f).Some? then FlatOption(First(name, sh.f)) else
      match sh
      case Whole(_) => None
      case Stray(_, rest) => FirstIn(name, rest)
      case Unclosed(_, element, rest) => if element.name == name then Some(Tags(rest)) else None
  }

  lemma {:induction false} FoundBefore(needle: string, f: seq<Node>, s: seq<Tag>)
    ensures FindFrom(needle, 0, Flat(f) + s) ==
            if First(needle, f).Some? then FlatOption(First(needle, f)) else FindFrom(needle, 0, s)
    decreases f
  {
    hide FlatNode, FindFrom;
    if f == [] {
      AppendEmpty(s);
    } else {
      AppendAssoc(FlatNode(f[0]), Flat(f[1..]), s);
      if Named(needle, f[0]) {
        NamedIsFound(needle, f[0], Flat(f[1..]) + s);
      } else {
        NodeSkipped(needle, 0, f[0], Flat(f[1..]) + s);
        FoundBefore(needle, f[1..], s);
      }
    }
  }

  lemma {:induction false} OpenIsCollected(depth: nat, sh: Shape)
    requires depth > 0 && Open(sh)
    ensures Collect(depth, Tags(sh)) == Tags(sh)
    decreases sh
  {
    hide Flat;
    match sh {
      case Whole(f) =>
        AppendEmpty(Flat(f));
        FlatCollected(depth, f, []);
      case Unclosed(f, element, rest) =>
        FlatCollected(depth, f, [ElementStart(element)] + Tags(rest));
        TailOf(ElementStart(element), Tags(rest));
        OpenIsCollected(depth + 1, rest);
    }
  }

  lemma {:induction false} OpenIsSkipped(needle: string, depth: nat, sh: Shape)
    requires depth > 0 && Open(sh)
    ensures FindFrom(needle, depth, Tags(sh)) == None
    decreases sh
  {
    hide Flat;
    match sh {
      case Whole(f) =>
        AppendEmpty(Flat(f));
        FlatSkipped(needle, depth, f, []);
      case Unclosed(f, element, rest) =>
        FlatSkipped(needle, depth, f, [ElementStart(element)] + Tags(rest));
        TailOf(ElementStart(element), Tags(rest));
        OpenIsSkipped(needle, depth + 1, rest);
    }
  }

  /** What a search returns, for every tag list. */
  lemma {:induction false} AnyFoundMeans(needle: string, sh: Shape)
    requires WellShaped(sh)
    ensures Found(needle, Tags(sh)) == FirstIn(needle, sh)
    decreases sh
  {
    hide Flat, Collect;
    match sh {
      case Whole(f) => FoundMeans(needle, f);
      case Stray(f, rest) =>
        FoundBefore(needle, f, [ElementEnd] + Tags(rest));
        TailOf(ElementEnd, Tags(rest));
        AnyFoundMeans(needle, rest);
      case Unclosed(f, element, rest) =>
        FoundBefore(needle, f, [ElementStart(element)] + Tags(rest));
        TailOf(ElementStart(element), Tags(rest));
        OpenIsCollected(1, rest);
        OpenIsSkipped(needle, 1, rest);
    }
  }

  // ---- Removing ---------------------------------------------------------------------------------

  /** Trees without the elements of a name `k` levels down. */
  function WithoutAt(name: string, k: nat, f: seq<Node>): seq<Node> {
    if f == [] then [] else NodeWithoutAt(name, k, f[0]) + WithoutAt(name, k, f[1..])
  }

  function NodeWithoutAt(name: string, k: nat, n: Node): seq<Node> {
    if k == 0 then if Named(name, n) then [] else [n]
    else if n.Element? then [Element(n.element, WithoutAt(name, k - 1, n.children))]
    else [n]
  }

  /** What is left when removal starts `k` levels up. */
  function WithoutIn(name: string, k: nat, sh: Shape): seq<Tag>
    decreases sh
  {
    Flat(WithoutAt(name, k, sh.f)) +
    match sh
    case Whole(_) => []
    case Stray(_, rest) => [ElementEnd] + WithoutIn(name, k + 1, rest)
    case Unclosed(_, element, rest) =>
      if k > 0 then [ElementStart(element)] + WithoutIn(name, k - 1, rest)
      else if element.name == name then []
      else [ElementStart(element)] + Tags(rest)
  }

  lemma {:induction false} KeptBelow(name: string, k: nat, f: seq<Node>, rest: seq<Tag>)
    ensures Kept(name, -(k as int), false, Flat(f) + rest) ==
            Flat(WithoutAt(name, k, f)) + Kept(name, -(k as int), false, rest)
    decreases f
  {
    hide Kept, FlatNode, NodeWithoutAt;
    if f == [] {
      AppendEmpty(rest);
      FlatNothing(Kept(name, -(k as int), false, rest));
    } else {
      AppendAssoc(FlatNode(f[0]), Flat(f[1..]), rest);
      NodeKeptBelow(name, k, f[0], Flat(f[1..]) + rest);
      KeptBelow(name, k, f[1..], rest);
      var one, more := NodeWithoutAt(name, k, f[0]), WithoutAt(name, k, f[1..]);
      FlatAppend(one, more);
      AppendAssoc(Flat(one), Flat(more), Kept(name, -(k as int), false, rest));
    }
  }

  lemma {:induction false} NodeKeptBelow(name: string, k: nat, n: Node, rest: seq<Tag>)
    ensures Kept(name, -(k as int), false, FlatNode(n) + rest) ==
            Flat(NodeWithoutAt(name, k, n)) + Kept(name, -(k as int), false, rest)
    decreases n
  {
    var after := Kept(name, -(k as int), false, rest);
    FlatOne(n);
    if k == 0 {
      if Named(name, n) {
        NamedIsDropped(name, n, rest);
        FlatNothing(after);
      } else {
        NodeKept(name, 0, n, rest);
      }
    } else if n.Element? {
      ElementKeptBelow(name, k, n, rest);
    } else {
      TailOf(Text(n.text), rest);
    }
  }

  lemma {:induction false} ElementKeptBelow(name: string, k: nat, n: Node, rest: seq<Tag>)
    requires k > 0 && n.Element?
    ensures Kept(name, -(k as int), false, FlatNode(n) + rest) ==
            Flat(NodeWithoutAt(name, k, n)) + Kept(name, -(k as int), false, rest)
    decreases n, 0
  {
    hide FlatNode, Flat;
    var after, tail := Kept(name, -(k as int), false, rest), [ElementEnd] + rest;
    var left := WithoutAt(name, k - 1, n.children);
    FlatElement(n.element, n.children, rest);
    TailOf(ElementStart(n.element), Flat(n.children) + tail);
    KeptBelow(name, k - 1, n.children, tail);
    TailOf(ElementEnd, rest);
    FlatOne(Element(n.element, left));
    FlatElement(n.element, left, after);
  }

  lemma FlatOne(n: Node)
    ensures Flat([n]) == FlatNode(n)
  {
    AppendEmpty(FlatNode(n));
  }

  lemma {:induction false} OpenIsKept(name: string, depth: nat, sh: Shape)
    requires depth > 0 && Open(sh)
    ensures Kept(name, depth, false, Tags(sh)) == Tags(sh)
    decreases sh
  {
    hide Flat;
    match sh {
      case Whole(f) =>
        AppendEmpty(Flat(f));
        FlatKept(name, depth, f, []);
      case Unclosed(f, element, rest) =>
        FlatKept(name, depth, f, [ElementStart(element)] + Tags(rest));
        TailOf(ElementStart(element), Tags(rest));
        OpenIsKept(name, depth + 1, rest);
    }
  }

  lemma {:induction false} OpenIsDropped(name: string, depth: nat, sh: Shape)
    requires depth > 0 && Open(sh)
    ensures Kept(name, depth, true, Tags(sh)) == []
    decreases sh
  {
    hide Flat;
    match sh {
      case Whole(f) =>
        AppendEmpty(Flat(f));
        FlatDropped(name, depth, f, []);
      case Unclosed(f, element, rest) =>
        FlatDropped(name, depth, f, [ElementStart(element)] + Tags(rest));
        TailOf(ElementStart(element), Tags(rest));
        OpenIsDropped(name, depth + 1, rest);
    }
  }

  lemma {:induction false} KeptIn(name: string, k: nat, sh: Shape)
    requires WellShaped(sh)
    ensures Kept(name, -(k as int), false, Tags(sh)) == WithoutIn(name, k, sh)
    decreases sh
  {
    hide Flat, WithoutAt;
    match sh {
      case Whole(f) =>
        AppendEmpty(Flat(f));
        KeptBelow(name, k, f, []);
      case Stray(f, rest) =>
        KeptBelow(name, k, f, [ElementEnd] + Tags(rest));
        TailOf(ElementEnd, Tags(rest));
        KeptIn(name, k + 1, rest);
      case Unclosed(f, element, rest) =>
        KeptBelow(name, k, f, [ElementStart(element)] + Tags(rest));
        TailOf(ElementStart(element), Tags(rest));
        if k > 0 {
          OpenIsWellShaped(rest);
          KeptIn(name, k - 1, rest);
        } else {
          OpenIsKept(name, 1, rest);
          OpenIsDropped(name, 1, rest);
        }
    }
  }

  /** What a removal leaves, for every tag list. */
  lemma AnyRemovedMeans(name: string, sh: Shape)
    requires WellShaped(sh)
    ensures Removed(name, Tags(sh)) == WithoutIn(name, 0, sh)
  {
    KeptIn(name, 0, sh);
  }

  // ---- Sizes ------------------------------------------------------------------------------------

  /** A character in UTF-8 (section 3 of RFC 3629). */
  function Octets(c: char): seq<byte> {
    var n := c as int;
    if n <= 0x7f then [n]
    else if n <= 0x7ff then [0xc0 + n / 64, 0x80 + n % 64]
    else if n <= 0xffff then [0xe0 + n / 4096, 0x80 + n / 64 % 64, 0x80 + n % 64]
    else [0xf0 + n / 0x4_0000, 0x80 + n / 4096 % 64, 0x80 + n / 64 % 64, 0x80 + n % 64]
  }

  function TextOctets(s: string): seq<byte> {
    if s == "" then [] else TextOctets(s[..|s| - 1]) + Octets(s[|s| - 1])
  }

  /** The octets a tag is charged for: its texts, and one for an end tag. */
  function TagOctets(t: Tag): seq<byte> {
    match t
    case ElementStart(element) => TextOctets(element.name) + TextOctets(if element.attrs.Some? then element.attrs.value else "")
    case ElementEnd => [0]
    case Text(text) => TextOctets(text)
  }

  function ListOctets(s: seq<Tag>): seq<byte> {
    if s == [] then [] else ListOctets(s[..|s| - 1]) + TagOctets(s[|s| - 1])
  }

  lemma {:induction false} TextSizeIsOctets(s: string)
    ensures TextBytes(s) == |TextOctets(s)|
    decreases |s|
  {
    if s != "" {
      TextSizeIsOctets(s[..|s| - 1]);
    }
  }

  /** The size of a list is the number of octets of its texts, and one for each end tag. */
  lemma {:induction false} SizeIsOctets(s: seq<Tag>)
    ensures Size(s) == |ListOctets(s)|
    decreases |s|
  {
    if s != [] {
      SizeIsOctets(s[..|s| - 1]);
      match s[|s| - 1] {
        case ElementStart(element) =>
          TextSizeIsOctets(element.name);
          TextSizeIsOctets(if element.attrs.Some? then element.attrs.value else "");
        case ElementEnd =>
        case Text(text) => TextSizeIsOctets(text);
      }
    }
  }
}
