/**
 Truncation of an account's change logs: each log keeps its newest entries and, in the place of the
 next one, an empty entry that marks where history starts. Keys are ordered by account, collection
 and change id, so a range of ids of one log is a range of keys.
 */
module ChangeLog {
  import opened Basics

  datatype LogKey = LogKey(account: nat, collection: byte, id: nat)

  type Logs = map<LogKey, seq<byte>>

  datatype SyncCollection =
    | Email | Thread | Calendar | AddressBook | FileNode | Identity | EmailSubmission | SieveScript
    | CalendarEventNotification

  const SHARE_NOTIFICATION: byte := 9

  function Code(s: SyncCollection): byte {
    match s
    case Email => 0
    case Thread => 1
    case Calendar => 2
    case AddressBook => 3
    case FileNode => 4
    case Identity => 5
    case EmailSubmission => 6
    case SieveScript => 7
    case CalendarEventNotification => 8
  }

  /** The log of vanished items that goes with a collection, if any. */
  function VanishedCode(s: SyncCollection): Option<byte> {
    match s
    case Email => Some(251)
    case Calendar => Some(252)
    case AddressBook => Some(253)
    case FileNode => Some(254)
    case _ => None
  }

  const PRUNED: seq<SyncCollection> :=
    [Email, Thread, Identity, EmailSubmission, SieveScript, FileNode, AddressBook, Calendar, CalendarEventNotification]

  // ---- Ids and cuts -----------------------------------------------------------------------------

  function Ids(logs: Logs, account: nat, collection: byte): set<nat> {
    set k | k in logs && k.account == account && k.collection == collection :: k.id
  }

  function Above(ids: set<nat>, x: nat): set<nat> {
    set i | i in ids && i > x
  }

  /** `x` is the id with exactly `m` newer ones. */
  predicate IsCut(ids: set<nat>, m: nat, x: nat) {
    x in ids && |Above(ids, x)| == m
  }

  predicate IsMax(ids: set<nat>, x: nat) {
    x in ids && forall i :: i in ids ==> i <= x
  }

  lemma {:induction false} MaxExists(ids: set<nat>) returns (x: nat)
    requires ids != {}
    ensures IsMax(ids, x)
    decreases |ids|
  {
    var y :| y in ids;
    var rest := ids - {y};
    assert ids == rest + {y};
    if rest == {} {
      x := y;
    } else {
      var z := MaxExists(rest);
      x := if y > z then y else z;
    }
  }

  lemma CutIsUnique(ids: set<nat>, m: nat, x: nat, y: nat)
    requires IsCut(ids, m, x) && IsCut(ids, m, y)
    ensures x == y
  {
    if x < y {
      SubsetSize(Above(ids, y) + {y}, Above(ids, x));
    } else if y < x {
      SubsetSize(Above(ids, x) + {x}, Above(ids, y));
    }
  }

  lemma {:induction false} SubsetSize(a: set<nat>, b: set<nat>)
    requires a <= b
    ensures |a| <= |b|
    decreases |a|
  {
    if a != {} {
      var x :| x in a;
      SubsetSize(a - {x}, b - {x});
    }
  }

  lemma {:induction false} CutExists(ids: set<nat>, m: nat)
    requires |ids| > m
    ensures exists x :: IsCut(ids, m, x)
    decreases m
  {
    var top := MaxExists(ids);
    if m == 0 {
      assert Above(ids, top) == {};
      assert IsCut(ids, m, top);
    } else {
      CutExists(ids - {top}, m - 1);
      var x :| IsCut(ids - {top}, m - 1, x);
      assert Above(ids, x) == Above(ids - {top}, x) + {top};
      assert IsCut(ids, m, x);
    }
  }

  ghost function Cut(ids: set<nat>, m: nat): (x: nat)
    requires |ids| > m
    ensures IsCut(ids, m, x)
  {
    CutExists(ids, m);
    var x :| IsCut(ids, m, x);
    x
  }

  // ---- What truncation computes -----------------------------------------------------------------

  predicate InRange(k: LogKey, account: nat, collection: byte, end: nat) {
    k.account == account && k.collection == collection && k.id < end
  }

  /** A range delete: the ids below `end`. */
  function Cleared(logs: Logs, account: nat, collection: byte, end: nat): Logs {
    map k | k in logs && !InRange(k, account, collection, end) :: logs[k]
  }

  function ClearedOption(logs: Logs, account: nat, collection: Option<byte>, end: nat): Logs {
    if collection.None? then logs else Cleared(logs, account, collection.value, end)
  }

  function TruncatedAt(logs: Logs, account: nat, s: SyncCollection, x: nat): Logs {
    ClearedOption(Cleared(logs, account, Code(s), x), account, VanishedCode(s), x)[LogKey(account, Code(s), x) := []]
  }

  ghost function Truncated(logs: Logs, account: nat, s: SyncCollection, m: nat): Logs {
    var ids := Ids(logs, account, Code(s));
    if |ids| <= m then logs else TruncatedAt(logs, account, s, Cut(ids, m))
  }

  ghost function TruncatedAll(logs: Logs, account: nat, m: nat, list: seq<SyncCollection>): Logs {
    if list == [] then logs else TruncatedAll(Truncated(logs, account, list[0], m), account, m, list[1..])
  }

  // ---- One log ----------------------------------------------------------------------------------

  /** The keys truncating a collection may touch: its log and its vanished items. */
  predicate Owns(s: SyncCollection, account: nat, k: LogKey) {
    k.account == account && (k.collection == Code(s) || VanishedCode(s) == Some(k.collection))
  }

  predicate SameAt(a: Logs, b: Logs, k: LogKey) {
    (k in a <==> k in b) && (k in a ==> a[k] == b[k])
  }

  lemma OwnersAreDistinct(s: SyncCollection, t: SyncCollection, account: nat, k: LogKey)
    requires Owns(s, account, k) && Owns(t, account, k)
    ensures s == t
  {
  }

  lemma TruncatedFrame(logs: Logs, account: nat, s: SyncCollection, m: nat, k: LogKey)
    requires !Owns(s, account, k)
    ensures SameAt(Truncated(logs, account, s, m), logs, k)
  {
  }

  /** A log left with the entries above `x` as they were, and an empty one at `x`. */
  predicate LeftFrom(logs: Logs, after: Logs, account: nat, c: byte, x: nat) {
    var ids := Ids(logs, account, c);
    && Ids(after, account, c) == Above(ids, x) + {x}
    && LogKey(account, c, x) in after && after[LogKey(account, c, x)] == []
    && forall i :: i in Above(ids, x) ==> SameAt(after, logs, LogKey(account, c, i))
  }

  /** An over-long log keeps its `m` newest entries and an empty one in the place of the next. */
  lemma TruncatedMeans(logs: Logs, account: nat, s: SyncCollection, m: nat)
    requires |Ids(logs, account, Code(s))| > m
    ensures var x := Cut(Ids(logs, account, Code(s)), m);
            LeftFrom(logs, Truncated(logs, account, s, m), account, Code(s), x)
  {
    var ids := Ids(logs, account, Code(s));
    TruncatedIds(logs, account, s, Cut(ids, m));
  }

  lemma TruncatedIds(logs: Logs, account: nat, s: SyncCollection, x: nat)
    requires x in Ids(logs, account, Code(s))
    ensures Ids(TruncatedAt(logs, account, s, x), account, Code(s)) == Above(Ids(logs, account, Code(s)), x) + {x}
  {
    var after, c := TruncatedAt(logs, account, s, x), Code(s);
    var ids := Ids(logs, account, c);
    forall i: nat
      ensures i in Ids(after, account, c) <==> i in Above(ids, x) + {x}
    {
      var k := LogKey(account, c, i);
      assert i in Ids(after, account, c) <==> k in after;
      assert i in ids <==> k in logs;
    }
  }

  /** Truncation looks at nothing but the log it truncates and its vanished items. */
  ghost predicate SameOn(a: Logs, b: Logs, account: nat, s: SyncCollection) {
    forall k :: Owns(s, account, k) ==> SameAt(a, b, k)
  }

  lemma SameIds(a: Logs, b: Logs, account: nat, s: SyncCollection)
    requires SameOn(a, b, account, s)
    ensures Ids(a, account, Code(s)) == Ids(b, account, Code(s))
  {
    forall i: nat
      ensures i in Ids(a, account, Code(s)) <==> i in Ids(b, account, Code(s))
    {
      var k := LogKey(account, Code(s), i);
      assert Owns(s, account, k);
      assert i in Ids(a, account, Code(s)) <==> k in a;
      assert i in Ids(b, account, Code(s)) <==> k in b;
    }
  }

  lemma TruncatedLocal(a: Logs, b: Logs, account: nat, s: SyncCollection, m: nat)
    requires SameOn(a, b, account, s)
    ensures SameOn(Truncated(a, account, s, m), Truncated(b, account, s, m), account, s)
  {
    hide Ids, Code, VanishedCode;
    SameIds(a, b, account, s);
  }

  /** The entries of `new` come after every entry of the log. */
  ghost predicate Newer(new_: Logs, logs: Logs, account: nat, s: SyncCollection) {
    forall k, i :: k in new_ && Owns(s, account, k) && i in Ids(logs, account, Code(s)) ==> i < k.id
  }

  lemma IdsOfSum(a: Logs, b: Logs, account: nat, c: byte)
    ensures Ids(a + b, account, c) == Ids(a, account, c) + Ids(b, account, c)
  {
    forall i: nat
      ensures i in Ids(a + b, account, c) <==> i in Ids(a, account, c) + Ids(b, account, c)
    {
      var k := LogKey(account, c, i);
      assert i in Ids(a + b, account, c) <==> k in a + b;
      assert i in Ids(a, account, c) <==> k in a;
      assert i in Ids(b, account, c) <==> k in b;
    }
  }

  /**
   A log on its way to being truncated at `x`: nothing from `x` on is touched but the entry at `x`
   itself, and of what is older any part may be gone.
   */
  ghost predicate Partial(logs: Logs, part: Logs, account: nat, s: SyncCollection, x: nat) {
    var marker := LogKey(account, Code(s), x);
    && marker in part
    && (forall k :: Owns(s, account, k) && k in part ==> k in logs || k == marker)
    && (forall k :: Owns(s, account, k) && k.id >= x && k != marker ==> SameAt(part, logs, k))
  }

  lemma PartialIds(logs: Logs, part: Logs, account: nat, s: SyncCollection, x: nat)
    requires Partial(logs, part, account, s, x) && x in Ids(logs, account, Code(s))
    ensures var ids, left := Ids(logs, account, Code(s)), Ids(part, account, Code(s));
            x in left && left <= ids && Above(left, x) == Above(ids, x)
  {
    var c := Code(s);
    assert LogKey(account, c, x) in part;
    forall i: nat
      ensures i in Ids(part, account, c) ==> i in Ids(logs, account, c)
      ensures i > x ==> (i in Ids(part, account, c) <==> i in Ids(logs, account, c))
    {
      var k := LogKey(account, c, i);
      assert Owns(s, account, k);
      assert i in Ids(part, account, c) <==> k in part;
      assert i in Ids(logs, account, c) <==> k in logs;
    }
  }

  /** The cut of a longer log is not older, and the log partly truncated before has the same one. */
  lemma CutMovesUp(ids: set<nat>, left: set<nat>, x: nat, more: set<nat>, m: nat, y: nat)
    requires IsCut(ids, m, x) && IsCut(ids + more, m, y)
    requires x in left && left <= ids && Above(left, x) == Above(ids, x)
    requires forall i, j :: i in ids && j in more ==> i < j
    ensures x <= y && IsCut(left + more, m, y)
  {
    if y < x {
      SubsetSize(Above(ids, x) + {x}, Above(ids + more, y));
    }
    assert forall i :: i in ids && i >= x ==> i == x || i in Above(ids, x);
    assert forall i :: i in ids && i >= x ==> i in left;
    assert Above(left + more, y) == Above(ids + more, y);
  }

  /** Truncating partly, adding newer entries and truncating again is truncating once at the end. */
  lemma TruncateRest(logs: Logs, part: Logs, new_: Logs, account: nat, s: SyncCollection, m: nat)
    requires Newer(new_, logs, account, s) && |Ids(logs, account, Code(s))| > m
    requires Partial(logs, part, account, s, Cut(Ids(logs, account, Code(s)), m))
    ensures SameOn(Truncated(part + new_, account, s, m), Truncated(logs + new_, account, s, m), account, s)
  {
    var c := Code(s);
    var ids, left, more := Ids(logs, account, c), Ids(part, account, c), Ids(new_, account, c);
    var x := Cut(ids, m);
    IdsOfSum(logs, new_, account, c);
    IdsOfSum(part, new_, account, c);
    PartialIds(logs, part, account, s, x);
    SubsetSize(ids, ids + more);
    var y := Cut(ids + more, m);
    NewerIds(logs, new_, account, s);
    hide Ids, Above, Partial, Newer, SameOn;
    CutMovesUp(ids, left, x, more, m, y);
    CutFits(left + more, m, y);
    CutIsUnique(left + more, m, y, Cut(left + more, m));
    TruncatedRest(logs, part, new_, account, s, x, y);
  }

  lemma CutFits(ids: set<nat>, m: nat, x: nat)
    requires IsCut(ids, m, x)
    ensures |ids| > m
  {
    SubsetSize(Above(ids, x) + {x}, ids);
  }

  lemma NewerIds(logs: Logs, new_: Logs, account: nat, s: SyncCollection)
    requires Newer(new_, logs, account, s)
    ensures forall i, j :: i in Ids(logs, account, Code(s)) && j in Ids(new_, account, Code(s)) ==> i < j
  {
    forall i, j | i in Ids(logs, account, Code(s)) && j in Ids(new_, account, Code(s))
      ensures i < j
    {
      var k := LogKey(account, Code(s), j);
      assert k in new_ && Owns(s, account, k);
    }
  }

  lemma TruncatedRest(logs: Logs, part: Logs, new_: Logs, account: nat, s: SyncCollection, x: nat, y: nat)
    requires x <= y && Partial(logs, part, account, s, x)
    ensures SameOn(TruncatedAt(part + new_, account, s, y), TruncatedAt(logs + new_, account, s, y), account, s)
  {
    hide TruncatedAt, Owns;
    forall k | Owns(s, account, k)
      ensures SameAt(TruncatedAt(part + new_, account, s, y), TruncatedAt(logs + new_, account, s, y), k)
    {
      TruncatedKey(part + new_, account, s, y, k);
      TruncatedKey(logs + new_, account, s, y, k);
    }
  }

  /** Truncation, key by key. */
  lemma TruncatedKey(logs: Logs, account: nat, s: SyncCollection, x: nat, k: LogKey)
    requires Owns(s, account, k)
    ensures var after, marker := TruncatedAt(logs, account, s, x), LogKey(account, Code(s), x);
            && (k in after <==> k == marker || (k in logs && k.id >= x))
            && (k in after ==> after[k] == if k == marker then [] else logs[k])
  {
  }
}
