/**
 Migrating message metadata: a legacy message holds its embedded messages inside its parts; the
 new form is one array of messages in which a part refers to an embedded message by index. The
 conversion walks the tree breadth first, with a queue.
 */
module Flatten {
  import opened Basics

  const U16: nat := 0x1_0000

  datatype Encoding = Identity | QuotedPrintable | Base64

  /** `H` stands for headers and offsets, which are carried over part by part. */
  datatype LegacyPart<H> = LegacyPart(
    header: H, encoding: Encoding, problem: bool, size: nat, body: LegacyBody<H>)

  datatype LegacyBody<H> =
    | LegacyText | LegacyHtml | LegacyBinary | LegacyInlineBinary
    | LegacyEmbedded(message: LegacyMessage<H>)
    | LegacyMultipart(children: seq<nat>)

  datatype LegacyMessage<H> = LegacyMessage(
    htmlBody: seq<nat>, textBody: seq<nat>, attachments: seq<nat>, parts: seq<LegacyPart<H>>)

  datatype Part<H> = Part(header: H, flags: nat, body: Body)

  datatype Body =
    | Text | Html | Binary | InlineBinary
    | Embedded(index: nat)
    | Multipart(children: seq<nat>)

  datatype Contents<H> = Contents(
    htmlBody: seq<nat>, textBody: seq<nat>, attachments: seq<nat>, parts: seq<Part<H>>)

  // ---- Converting one part ----------------------------------------------------------------------

  const FLAG_BASE64: nat := 0x8000_0000
  const FLAG_QP: nat := 0x4000_0000
  const FLAG_PROBLEM: nat := 0x2000_0000

  /** Encoding, problem flag and size share one 32-bit word; the size keeps 29 bits. */
  function Flags(encoding: Encoding, problem: bool, size: nat): nat {
    (match encoding case Identity => 0 case QuotedPrintable => FLAG_QP case Base64 => FLAG_BASE64)
    + (if problem then FLAG_PROBLEM else 0) + size % FLAG_PROBLEM
  }

  function FlagsEncoding(flags: nat): Encoding {
    if flags >= FLAG_BASE64 then Base64 else if flags >= FLAG_QP then QuotedPrintable else Identity
  }

  function FlagsProblem(flags: nat): bool {
    flags / FLAG_PROBLEM % 2 == 1
  }

  function FlagsSize(flags: nat): nat {
    flags % FLAG_PROBLEM
  }

  lemma FlagsRoundTrip(encoding: Encoding, problem: bool, size: nat)
    ensures var f := Flags(encoding, problem, size);
            FlagsEncoding(f) == encoding && FlagsProblem(f) == problem && FlagsSize(f) == size % FLAG_PROBLEM
  {
  }

  /** In the 32-bit word, the top three bits are base 64, quoted-printable and the problem flag. */
  lemma FlagsAreBits(encoding: Encoding, problem: bool, size: nat)
    ensures var f := Flags(encoding, problem, size);
            && f < 0x1_0000_0000
            && (f / 0x8000_0000 == 1 <==> encoding.Base64?)
            && (f / 0x4000_0000 % 2 == 1 <==> encoding.QuotedPrintable?)
            && (f / 0x2000_0000 % 2 == 1 <==> problem)
            && f % 0x2000_0000 == size % 0x2000_0000
  {
    var f := Flags(encoding, problem, size);
    var top := if encoding.Base64? then 2 else if encoding.QuotedPrintable? then 1 else 0;
    var flag := if problem then 1 else 0;
    DivIs(f, 0x2000_0000, 2 * top + flag, size % 0x2000_0000);
  }

  /** What a 16-bit field holds of a number. */
  function Cut(n: nat): nat {
    n % U16
  }

  function Narrow(xs: seq<nat>): seq<nat> {
    seq(|xs|, i requires 0 <= i < |xs| => Cut(xs[i]))
  }

  function ConvertBody<H>(b: LegacyBody<H>, index: nat): Body {
    match b
    case LegacyText => Text
    case LegacyHtml => Html
    case LegacyBinary => Binary
    case LegacyInlineBinary => InlineBinary
    case LegacyEmbedded(_) => Embedded(index)
    case LegacyMultipart(children) => Multipart(Narrow(children))
  }

  function ConvertPart<H>(p: LegacyPart<H>, index: nat): Part<H> {
    Part(p.header, Flags(p.encoding, p.problem, p.size), ConvertBody(p.body, index))
  }

  // ---- Sizes the new form can hold --------------------------------------------------------------

  function CountMessages<H>(m: LegacyMessage<H>): nat
    decreases m
  {
    1 + CountInParts(m.parts)
  }

  function CountInPart<H>(p: LegacyPart<H>): nat
    decreases p
  {
    if p.body.LegacyEmbedded? then CountMessages(p.body.message) else 0
  }

  function CountInParts<H>(ps: seq<LegacyPart<H>>): nat
    decreases ps
  {
    if ps == [] then 0 else CountInParts(ps[..|ps| - 1]) + CountInPart(ps[|ps| - 1])
  }

  function CountQueue<H>(q: seq<LegacyMessage<H>>): nat {
    if q == [] then 0 else CountQueue(q[..|q| - 1]) + CountMessages(q[|q| - 1])
  }

  predicate SmallIndices(xs: seq<nat>) {
    forall i :: 0 <= i < |xs| ==> xs[i] < 0x1_0000
  }

  /** Part indices fit 16 bits and sizes 29 bits, in the message and every message inside it. */
  predicate Fits<H>(m: LegacyMessage<H>)
    decreases m
  {
    && SmallIndices(m.htmlBody) && SmallIndices(m.textBody) && SmallIndices(m.attachments)
    && forall i :: 0 <= i < |m.parts| ==> PartFits(m.parts[i])
  }

  predicate PartFits<H>(p: LegacyPart<H>)
    decreases p
  {
    && p.size < 0x2000_0000
    && (p.body.LegacyMultipart? ==> SmallIndices(p.body.children))
    && (p.body.LegacyEmbedded? ==> Fits(p.body.message))
  }

  /** A message as the new form can hold it: indices cut to 16 bits and sizes to 29, its tree as it was. */
  function Masked<H>(m: LegacyMessage<H>): LegacyMessage<H>
    decreases m
  {
    LegacyMessage(Narrow(m.htmlBody), Narrow(m.textBody), Narrow(m.attachments), MaskedParts(m.parts))
  }

  function MaskedPart<H>(p: LegacyPart<H>): LegacyPart<H>
    decreases p
  {
    var body := if p.body.LegacyMultipart? then LegacyMultipart(Narrow(p.body.children))
                else if p.body.LegacyEmbedded? then LegacyEmbedded(Masked(p.body.message))
                else p.body;
    p.(size := p.size % FLAG_PROBLEM, body := body)
  }

  function MaskedParts<H>(ps: seq<LegacyPart<H>>): (r: seq<LegacyPart<H>>)
    ensures |r| == |ps|
    decreases ps
  {
    if ps == [] then [] else MaskedParts(ps[..|ps| - 1]) + [MaskedPart(ps[|ps| - 1])]
  }

  lemma NarrowIsSame(xs: seq<nat>)
    ensures Narrow(xs) == xs <==> SmallIndices(xs)
  {
    if Narrow(xs) == xs {
      assert forall i :: 0 <= i < |xs| ==> xs[i] == Narrow(xs)[i];
    }
  }

  /** Nothing is cut exactly when everything fits. */
  lemma {:induction false} MaskedIsSame<H>(m: LegacyMessage<H>)
    ensures Masked(m) == m <==> Fits(m)
    decreases m
  {
    NarrowIsSame(m.htmlBody);
    NarrowIsSame(m.textBody);
    NarrowIsSame(m.attachments);
    MaskedPartsAreSame(m.parts);
  }

  lemma {:induction false} MaskedPartIsSame<H>(p: LegacyPart<H>)
    ensures MaskedPart(p) == p <==> PartFits(p)
    decreases p
  {
    if p.body.LegacyMultipart? {
      NarrowIsSame(p.body.children);
    } else if p.body.LegacyEmbedded? {
      MaskedIsSame(p.body.message);
    }
  }

  lemma {:induction false} MaskedPartsAreSame<H>(ps: seq<LegacyPart<H>>)
    ensures MaskedParts(ps) == ps <==> forall i :: 0 <= i < |ps| ==> PartFits(ps[i])
    decreases ps
  {
    if ps != [] {
      var front, last := ps[..|ps| - 1], ps[|ps| - 1];
      MaskedPartsAreSame(front);
      MaskedPartIsSame(last);
      hide PartFits, MaskedPart;
      assert ps == front + [last];
      assert forall i :: 0 <= i < |front| ==> front[i] == ps[i];
    }
  }

  // ---- The embedded messages of a message, in order ---------------------------------------------

  function Children<H>(ps: seq<LegacyPart<H>>): seq<LegacyMessage<H>> {
    if ps == [] then []
    else
      var last := ps[|ps| - 1].body;
      Children(ps[..|ps| - 1]) + if last.LegacyEmbedded? then [last.message] else []
  }

  /** Converted parts; the embedded messages get the indices after `id`, in order, cut to 16 bits. */
  function ConvertParts<H>(ps: seq<LegacyPart<H>>, id: nat): seq<Part<H>> {
    if ps == [] then []
    else
      var front := ps[..|ps| - 1];
      ConvertParts(front, id) + [ConvertPart(ps[|ps| - 1], Cut(id + |Children(front)| + 1))]
  }

  function Convert<H>(m: LegacyMessage<H>, id: nat): Contents<H> {
    Contents(Narrow(m.htmlBody), Narrow(m.textBody), Narrow(m.attachments), ConvertParts(m.parts, id))
  }

  /** The indices the parts refer to, in order. */
  function PartRefs<H>(ps: seq<Part<H>>): seq<nat> {
    if ps == [] then []
    else
      var last := ps[|ps| - 1].body;
      PartRefs(ps[..|ps| - 1]) + if last.Embedded? then [last.index] else []
  }

  function Refs<H>(cs: seq<Contents<H>>): seq<nat> {
    if cs == [] then [] else Refs(cs[..|cs| - 1]) + PartRefs(cs[|cs| - 1].parts)
  }

  function UpTo(from: nat, to: nat): seq<nat>
    requires from <= to
  {
    seq(to - from, i requires 0 <= i => from + 1 + i)
  }

  lemma {:induction false} ConvertPartsRefs<H>(ps: seq<LegacyPart<H>>, id: nat)
    ensures |ConvertParts(ps, id)| == |ps|
    ensures PartRefs(ConvertParts(ps, id)) == Narrow(UpTo(id, id + |Children(ps)|))
    decreases |ps|
  {
    if ps != [] {
      var front := ps[..|ps| - 1];
      ConvertPartsRefs(front, id);
      var all := ConvertParts(ps, id);
      assert all[..|all| - 1] == ConvertParts(front, id);
    }
  }

  /** Part by part: an embedded message is found where its reference points. */
  ghost predicate Linked<H>(c: Contents<H>, m: LegacyMessage<H>, all: seq<LegacyMessage<H>>, i: nat) {
    && c.htmlBody == Narrow(m.htmlBody) && c.textBody == Narrow(m.textBody) && c.attachments == Narrow(m.attachments)
    && |c.parts| == |m.parts|
    && forall j :: 0 <= j < |m.parts| ==> PartLinked(c.parts[j], m.parts[j], all, i)
  }

  ghost predicate PartLinked<H>(c: Part<H>, p: LegacyPart<H>, all: seq<LegacyMessage<H>>, i: nat) {
    && (p.body.LegacyEmbedded? ==>
          c.body.Embedded? && i < c.body.index < |all| && all[c.body.index] == p.body.message)
    && c == ConvertPart(p, if c.body.Embedded? then c.body.index else 0)
  }

  /** Converted parts are linked once their embedded messages stand after `id`. */
  lemma {:induction false} ConvertPartsLinked<H>(
    ps: seq<LegacyPart<H>>, id: nat, all: seq<LegacyMessage<H>>, i: nat, j: nat)
    requires i <= id && j < |ps| && id + 1 + |Children(ps)| <= |all| <= U16
    requires forall k :: 0 <= k < |Children(ps)| ==> all[id + 1 + k] == Children(ps)[k]
    ensures |ConvertParts(ps, id)| == |ps| && PartLinked(ConvertParts(ps, id)[j], ps[j], all, i)
    decreases |ps|
  {
    var front, last := ps[..|ps| - 1], ps[|ps| - 1];
    var kids := Children(front);
    ConvertPartsLength(ps, id);
    ConvertPartsLength(front, id);
    assert Children(ps) == kids + if last.body.LegacyEmbedded? then [last.body.message] else [];
    assert ConvertParts(ps, id) == ConvertParts(front, id) + [ConvertPart(last, Cut(id + |kids| + 1))];
    hide Children, ConvertParts, ConvertPart;
    if j < |front| {
      assert forall k :: 0 <= k < |kids| ==> kids[k] == Children(ps)[k];
      ConvertPartsLinked(front, id, all, i, j);
    } else {
      if last.body.LegacyEmbedded? {
        assert Children(ps)[|kids|] == last.body.message;
      }
      PartIsLinked(last, Cut(id + |kids| + 1), all, i);
    }
  }

  lemma PartIsLinked<H>(p: LegacyPart<H>, index: nat, all: seq<LegacyMessage<H>>, i: nat)
    requires p.body.LegacyEmbedded? ==> i < index < |all| && all[index] == p.body.message
    ensures PartLinked(ConvertPart(p, index), p, all, i)
  {
  }

  lemma {:induction false} ConvertPartsLength<H>(ps: seq<LegacyPart<H>>, id: nat)
    ensures |ConvertParts(ps, id)| == |ps|
    decreases |ps|
  {
    if ps != [] {
      ConvertPartsLength(ps[..|ps| - 1], id);
    }
  }

  lemma LinkedStays<H>(c: Contents<H>, m: LegacyMessage<H>, all: seq<LegacyMessage<H>>, i: nat, more: seq<LegacyMessage<H>>)
    requires Linked(c, m, all, i)
    ensures Linked(c, m, all + more, i)
  {
    forall j | 0 <= j < |m.parts|
      ensures PartLinked(c.parts[j], m.parts[j], all + more, i)
    {
      assert PartLinked(c.parts[j], m.parts[j], all, i);
    }
  }

  lemma {:induction false} CountOfChildren<H>(ps: seq<LegacyPart<H>>)
    ensures CountQueue(Children(ps)) == CountInParts(ps)
    decreases |ps|
  {
    if ps != [] {
      var front, last := ps[..|ps| - 1], ps[|ps| - 1];
      CountOfChildren(front);
      if last.body.LegacyEmbedded? {
        var all := Children(ps);
        assert all[..|all| - 1] == Children(front);
      } else {
        AppendEmpty(Children(front));
      }
    }
  }

  lemma {:induction false} CountQueueAppend<H>(a: seq<LegacyMessage<H>>, b: seq<LegacyMessage<H>>)
    ensures CountQueue(a + b) == CountQueue(a) + CountQueue(b)
    decreases |b|
  {
    if b == [] {
      AppendEmpty(a);
    } else {
      assert (a + b)[..|a + b| - 1] == a + b[..|b| - 1];
      CountQueueAppend(a, b[..|b| - 1]);
    }
  }

  lemma {:induction false} CountAtLeastLength<H>(q: seq<LegacyMessage<H>>)
    ensures CountQueue(q) >= |q|
    decreases |q|
  {
    if q != [] {
      CountAtLeastLength(q[..|q| - 1]);
    }
  }

  // ---- The conversion ---------------------------------------------------------------------------

  /** The inner loop: convert the parts of one message, queueing its embedded messages. */
  method ConvertMessageParts<H>(ps: seq<LegacyPart<H>>, queue: seq<LegacyMessage<H>>, id: nat, ghost queued: nat)
    returns (parts: seq<Part<H>>, queue': seq<LegacyMessage<H>>, id': nat)
    requires id == Cut(queued)
    ensures parts == ConvertParts(ps, queued)
    ensures queue' == queue + Children(ps) && id' == Cut(queued + |Children(ps)|)
  {
    hide Children, ConvertParts, ConvertPart, Cut;
    parts, queue', id' := [], queue, id;
    AppendEmpty(queue);
    NoParts(ps, queued);
    for k := 0 to |ps|
      invariant parts == ConvertParts(ps[..k], queued)
      invariant queue' == queue + Children(ps[..k]) && id' == Cut(queued + |Children(ps[..k])|)
    {
      OneMorePart(ps, k, queued);
      var p := ps[k];
      if p.body.LegacyEmbedded? {
        AppendAssoc(queue, Children(ps[..k]), [p.body.message]);
        queue' := queue' + [p.body.message];
        CutNext(queued + |Children(ps[..k])|);
        id' := Cut(id' + 1);
      } else {
        AppendEmpty(Children(ps[..k]));
      }
      parts := parts + [ConvertPart(p, id')];
    }
    assert ps[..|ps|] == ps;
  }

  lemma NoParts<H>(ps: seq<LegacyPart<H>>, id: nat)
    ensures Children(ps[..0]) == [] && ConvertParts(ps[..0], id) == []
  {
  }

  lemma OneMorePart<H>(ps: seq<LegacyPart<H>>, k: nat, id: nat)
    requires k < |ps|
    ensures var kids := Children(ps[..k]);
            && Children(ps[..k + 1]) == kids + (if ps[k].body.LegacyEmbedded? then [ps[k].body.message] else [])
            && ConvertParts(ps[..k + 1], id) ==
                 ConvertParts(ps[..k], id) + [ConvertPart(ps[k], Cut(id + |Children(ps[..k + 1])|))]
  {
    assert ps[..k + 1][..k] == ps[..k];
    if !ps[k].body.LegacyEmbedded? {
      OtherPart(ps[k], Cut(id + |Children(ps[..k])| + 1), Cut(id + |Children(ps[..k])|));
    }
    hide ConvertPart, Cut;
  }

  /** Only an embedded message has an index. */
  lemma OtherPart<H>(p: LegacyPart<H>, i: nat, j: nat)
    requires !p.body.LegacyEmbedded?
    ensures ConvertPart(p, i) == ConvertPart(p, j)
  {
  }

  lemma CutNext(n: nat)
    ensures Cut(Cut(n) + 1) == Cut(n + 1)
  {
  }

  /** Every message of the result is linked to the messages listed in `all`, whose first is the root. */
  ghost predicate AllLinked<H>(cs: seq<Contents<H>>, all: seq<LegacyMessage<H>>) {
    |cs| <= |all| && forall i :: 0 <= i < |cs| ==> Linked(cs[i], all[i], all, i)
  }

  lemma CountAfterPop<H>(queue: seq<LegacyMessage<H>>)
    requires queue != []
    ensures CountQueue(queue[1..] + Children(queue[0].parts)) + 1 == CountQueue(queue)
  {
    var m := queue[0];
    HeadTail(queue);
    CountQueueAppend([m], queue[1..]);
    assert [m][..0] == [];
    CountQueueAppend(queue[1..], Children(m.parts));
    CountOfChildren(m.parts);
  }

  /** Converting the next message in the queue keeps everything linked. */
  lemma MessageLinked<H>(cs: seq<Contents<H>>, all: seq<LegacyMessage<H>>, m: LegacyMessage<H>, id: nat)
    requires AllLinked(cs, all) && |cs| < |all| && all[|cs|] == m && id == |all| - 1
    requires |all| + |Children(m.parts)| <= U16
    ensures AllLinked(cs + [Convert(m, id)], all + Children(m.parts))
  {
    var all' := all + Children(m.parts);
    var cs' := cs + [Convert(m, id)];
    forall i | 0 <= i < |cs'|
      ensures Linked(cs'[i], all'[i], all', i)
    {
      if i < |cs| {
        LinkedStays(cs[i], all[i], all, i, Children(m.parts));
      } else {
        ConvertPartsRefs(m.parts, id);
        forall j | 0 <= j < |m.parts|
          ensures PartLinked(cs'[i].parts[j], m.parts[j], all', i)
        {
          ConvertPartsLinked(m.parts, id, all', i, j);
        }
      }
    }
  }

  lemma RefsSnoc<H>(cs: seq<Contents<H>>, c: Contents<H>, id: nat, n: nat, m: LegacyMessage<H>)
    requires Refs(cs) == Narrow(UpTo(0, id)) && c == Convert(m, id) && n == |Children(m.parts)|
    ensures Refs(cs + [c]) == Narrow(UpTo(0, id + n))
  {
    hide ConvertParts, PartRefs, Children;
    assert (cs + [c])[..|cs|] == cs;
    ConvertPartsRefs(m.parts, id);
    assert Narrow(UpTo(0, id)) + Narrow(UpTo(id, id + n)) == Narrow(UpTo(0, id + n));
  }

  // ---- Following the references back -------------------------------------------------------------

  /** References point forward and inside. */
  ghost predicate WellLinked<H>(cs: seq<Contents<H>>) {
    forall i, j :: 0 <= i < |cs| && 0 <= j < |cs[i].parts| && cs[i].parts[j].body.Embedded? ==>
      i < cs[i].parts[j].body.index < |cs|
  }

  ghost function Rebuild<H>(cs: seq<Contents<H>>, i: nat): LegacyMessage<H>
    requires WellLinked(cs) && i < |cs|
    decreases |cs| - i, 1, 0
  {
    var c := cs[i];
    LegacyMessage(c.htmlBody, c.textBody, c.attachments, RebuildParts(cs, i, |c.parts|))
  }

  ghost function RebuildParts<H>(cs: seq<Contents<H>>, i: nat, n: nat): seq<LegacyPart<H>>
    requires WellLinked(cs) && i < |cs| && n <= |cs[i].parts|
    decreases |cs| - i, 0, n
  {
    if n == 0 then []
    else
      var p := cs[i].parts[n - 1];
      var inner := if p.body.Embedded? then Some(Rebuild(cs, p.body.index)) else None;
      RebuildParts(cs, i, n - 1) + [RebuildPart(p, inner)]
  }

  /** A part from its converted form and, for an embedded message, what its reference leads to. */
  function RebuildPart<H>(p: Part<H>, inner: Option<LegacyMessage<H>>): LegacyPart<H>
    requires p.body.Embedded? ==> inner.Some?
  {
    var body: LegacyBody<H> := match p.body
      case Text => LegacyText
      case Html => LegacyHtml
      case Binary => LegacyBinary
      case InlineBinary => LegacyInlineBinary
      case Embedded(_) => LegacyEmbedded(inner.value)
      case Multipart(children) => LegacyMultipart(children);
    LegacyPart(p.header, FlagsEncoding(p.flags), FlagsProblem(p.flags), FlagsSize(p.flags), body)
  }

  lemma RebuildPartIsMasked<H>(p: LegacyPart<H>, index: nat, inner: Option<LegacyMessage<H>>)
    requires p.body.LegacyEmbedded? ==> inner == Some(Masked(p.body.message))
    ensures RebuildPart(ConvertPart(p, index), inner) == MaskedPart(p)
  {
    FlagsRoundTrip(p.encoding, p.problem, p.size);
    hide Flags, FlagsEncoding, FlagsProblem, FlagsSize, Narrow, Masked;
  }

  lemma LinkedIsWellLinked<H>(cs: seq<Contents<H>>, all: seq<LegacyMessage<H>>)
    requires |cs| == |all| && AllLinked(cs, all)
    ensures WellLinked(cs)
  {
    forall i, j | 0 <= i < |cs| && 0 <= j < |cs[i].parts| && cs[i].parts[j].body.Embedded?
      ensures i < cs[i].parts[j].body.index < |cs|
    {
      assert Linked(cs[i], all[i], all, i);
      assert PartLinked(cs[i].parts[j], all[i].parts[j], all, i);
    }
  }

  /** Following the references of a linked array rebuilds the nested message, cut to what its fields hold. */
  lemma {:induction false} RebuildIsMasked<H>(cs: seq<Contents<H>>, all: seq<LegacyMessage<H>>, i: nat)
    requires |cs| == |all| && AllLinked(cs, all) && WellLinked(cs) && i < |cs|
    ensures Rebuild(cs, i) == Masked(all[i])
    decreases |cs| - i, 1, 0
  {
    var c, m := cs[i], all[i];
    assert Linked(c, m, all, i);
    RebuildPartsAreMasked(cs, all, i, |c.parts|);
    assert m.parts[..|c.parts|] == m.parts;
  }

  lemma {:induction false} RebuildPartsAreMasked<H>(cs: seq<Contents<H>>, all: seq<LegacyMessage<H>>, i: nat, n: nat)
    requires |cs| == |all| && AllLinked(cs, all) && WellLinked(cs) && i < |cs|
    requires n <= |cs[i].parts| == |all[i].parts|
    ensures RebuildParts(cs, i, n) == MaskedParts(all[i].parts[..n])
    decreases |cs| - i, 0, n
  {
    if n > 0 {
      RebuildPartsAreMasked(cs, all, i, n - 1);
      var p, c := all[i].parts[n - 1], cs[i].parts[n - 1];
      assert Linked(cs[i], all[i], all, i);
      assert PartLinked(c, p, all, i);
      if p.body.LegacyEmbedded? {
        RebuildIsMasked(cs, all, c.body.index);
        RebuildPartIsMasked(p, c.body.index, Some(Masked(p.body.message)));
      } else {
        RebuildPartIsMasked(p, 0, None);
      }
      assert all[i].parts[..n][..n - 1] == all[i].parts[..n - 1];
      hide RebuildPart, ConvertPart;
    }
  }

  lemma CountOfOne<H>(m: LegacyMessage<H>)
    ensures CountQueue([m]) == CountMessages(m)
  {
    assert [m][..0] == [];
  }

  /**
   What the loop keeps: `all` lists the messages in the order they are queued, message `i` of the
   result is made from `all[i]`, and the references so far are 1 to `id`, in order, cut to 16 bits.
   */
  ghost predicate Progress<H>(
    root: LegacyMessage<H>, cs: seq<Contents<H>>, queue: seq<LegacyMessage<H>>, all: seq<LegacyMessage<H>>, id: nat)
  {
    && |all| == |cs| + |queue| && all[|cs|..] == queue && 0 < |all| && all[0] == root && id == |all| - 1
    && |cs| + CountQueue(queue) == CountMessages(root)
    && (CountMessages(root) <= U16 ==> AllLinked(cs, all))
    && Refs(cs) == Narrow(UpTo(0, id))
  }

  lemma ConvertIs<H>(m: LegacyMessage<H>, id: nat, c: Contents<H>)
    requires c == Contents(Narrow(m.htmlBody), Narrow(m.textBody), Narrow(m.attachments), ConvertParts(m.parts, id))
    ensures c == Convert(m, id)
  {
  }

  lemma CutZero()
    ensures Cut(0) == 0
  {
  }

  lemma ProgressStart<H>(root: LegacyMessage<H>)
    ensures Progress(root, [], [root], [root], 0)
  {
    CountOfOne(root);
  }

  lemma ProgressStep<H>(
    root: LegacyMessage<H>, cs: seq<Contents<H>>, queue: seq<LegacyMessage<H>>, all: seq<LegacyMessage<H>>, id: nat)
    requires Progress(root, cs, queue, all, id) && queue != []
    ensures var m := queue[0];
            var kids := Children(m.parts);
            && id + |kids| < CountMessages(root)
            && CountQueue(queue[1..] + kids) < CountQueue(queue)
            && Progress(root, cs + [Convert(m, id)], queue[1..] + kids, all + kids, id + |kids|)
  {
    hide CountQueue, CountMessages, Children, ConvertParts, Linked, Refs, UpTo, Narrow;
    var m := queue[0];
    var kids := Children(m.parts);
    assert m == all[|cs|];
    CountAfterPop(queue);
    CountAtLeastLength(queue[1..] + kids);
    if CountMessages(root) <= U16 {
      MessageLinked(cs, all, m, id);
    }
    RefsSnoc(cs, Convert(m, id), id, |kids|, m);
    QueueIsSuffix(all, |cs|, kids);
  }

  lemma ProgressEnd<H>(root: LegacyMessage<H>, cs: seq<Contents<H>>, all: seq<LegacyMessage<H>>, id: nat)
    requires Progress(root, cs, [], all, id)
    ensures 0 < |cs| == CountMessages(root)
    ensures Refs(cs) == Narrow(UpTo(0, |cs| - 1))
    ensures WellLinked(cs) <==> CountMessages(root) <= 0x1_0000
    ensures WellLinked(cs) ==> Rebuild(cs, 0) == Masked(root) && (Rebuild(cs, 0) == root <==> Fits(root))
  {
    hide Refs, Linked;
    if CountMessages(root) <= U16 {
      LinkedIsWellLinked(cs, all);
      RebuildIsMasked(cs, all, 0);
      MaskedIsSame(root);
    } else if WellLinked(cs) {
      assert Refs(cs)[U16 - 1] == 0;
      RefsArePositive(cs, U16 - 1);
    }
  }

  lemma {:induction false} PartRefsFrom<H>(ps: seq<Part<H>>, k: nat) returns (j: nat)
    requires k < |PartRefs(ps)|
    ensures j < |ps| && ps[j].body.Embedded? && ps[j].body.index == PartRefs(ps)[k]
    decreases |ps|
  {
    var n := |ps| - 1;
    if k < |PartRefs(ps[..n])| {
      j := PartRefsFrom(ps[..n], k);
    } else {
      j := n;
    }
  }

  /** Every reference stands in some message. */
  lemma {:induction false} RefsFrom<H>(cs: seq<Contents<H>>, k: nat) returns (i: nat, j: nat)
    requires k < |Refs(cs)|
    ensures i < |cs| && j < |cs[i].parts| && cs[i].parts[j].body.Embedded? && cs[i].parts[j].body.index == Refs(cs)[k]
    decreases |cs|
  {
    hide PartRefs;
    var n := |cs| - 1;
    var before := Refs(cs[..n]);
    if k < |before| {
      i, j := RefsFrom(cs[..n], k);
    } else {
      i := n;
      j := PartRefsFrom(cs[n].parts, k - |before|);
    }
  }

  /** References that point forward are never to the first message. */
  lemma RefsArePositive<H>(cs: seq<Contents<H>>, k: nat)
    requires WellLinked(cs) && k < |Refs(cs)|
    ensures Refs(cs)[k] > 0
  {
    hide Refs;
    var i, j := RefsFrom(cs, k);
  }

  /** The queue after a message is taken off and its embedded messages put on. */
  lemma QueueIsSuffix<H>(all: seq<LegacyMessage<H>>, n: nat, more: seq<LegacyMessage<H>>)
    requires n < |all|
    ensures (all + more)[n + 1..] == all[n..][1..] + more
  {
  }

  /**
   The outer loop over the queue. The references in the result are 1, 2, 3, ... in order, cut to 16
   bits. They all point forward, each to a message of its own, if and only if there are at most 65536
   messages. Then no structure is lost: following the references from the first message rebuilds the
   nested message, with indices cut to 16 bits and sizes to 29; and exactly that message if and only
   if those fit.
   */
  method FlattenMessage<H>(root: LegacyMessage<H>) returns (contents: seq<Contents<H>>)
    ensures 0 < |contents| == CountMessages(root) && Refs(contents) == Narrow(UpTo(0, |contents| - 1))
    ensures WellLinked(contents) <==> CountMessages(root) <= 0x1_0000
    ensures WellLinked(contents) ==>
              Rebuild(contents, 0) == Masked(root) && (Rebuild(contents, 0) == root <==> Fits(root))
  {
    hide *;
    contents := [];
    var queue, id := [root], 0;
    ghost var all := [root];
    ghost var queued: nat := 0;
    CutZero();
    ProgressStart(root);
    while queue != []
      invariant Progress(root, contents, queue, all, queued) && id == Cut(queued)
      decreases CountQueue(queue)
    {
      ProgressStep(root, contents, queue, all, queued);
      var message := queue[0];
      ghost var kids := Children(message.parts);
      var parts;
      parts, queue, id := ConvertMessageParts(message.parts, queue[1..], id, queued);
      var c := Contents(Narrow(message.htmlBody), Narrow(message.textBody), Narrow(message.attachments), parts);
      ConvertIs(message, queued, c);
      contents, all, queued := contents + [c], all + kids, queued + |kids|;
    }
    ProgressEnd(root, contents, all, queued);
  }
}
