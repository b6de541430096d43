/**
 Pruning all logs of an account, one after the other: what it leaves, that it can be stopped anywhere
 and resumed, and that pruning early never changes what a later pruning leaves.
 */
module ChangeLogPruning {
  import opened Basics
  import opened ChangeLog

  // ---- All logs of an account -------------------------------------------------------------------

  predicate Distinct(list: seq<SyncCollection>) {
    forall i, j :: 0 <= i < j < |list| ==> list[i] != list[j]
  }

  lemma {:induction false} OthersUntouched(logs: Logs, account: nat, m: nat, list: seq<SyncCollection>, k: LogKey)
    requires forall s :: s in list ==> !Owns(s, account, k)
    ensures SameAt(TruncatedAll(logs, account, m, list), logs, k)
    decreases |list|
  {
    hide Owns, Truncated;
    if list != [] {
      TruncatedFrame(logs, account, list[0], m, k);
      OthersUntouched(Truncated(logs, account, list[0], m), account, m, list[1..], k);
    }
  }

  lemma AbsentUntouched(logs: Logs, account: nat, m: nat, list: seq<SyncCollection>, s: SyncCollection)
    requires s !in list
    ensures SameOn(TruncatedAll(logs, account, m, list), logs, account, s)
  {
    forall k | Owns(s, account, k)
      ensures SameAt(TruncatedAll(logs, account, m, list), logs, k)
    {
      forall t | t in list
        ensures !Owns(t, account, k)
      {
        if Owns(t, account, k) {
          OwnersAreDistinct(s, t, account, k);
        }
      }
      OthersUntouched(logs, account, m, list, k);
    }
  }

  /** Each log is truncated as if it were the only one. */
  lemma {:induction false} EachIsTruncated(logs: Logs, account: nat, m: nat, list: seq<SyncCollection>, s: SyncCollection)
    requires s in list && Distinct(list)
    ensures SameOn(TruncatedAll(logs, account, m, list), Truncated(logs, account, s, m), account, s)
    decreases |list|
  {
    hide Owns, Truncated;
    var next := Truncated(logs, account, list[0], m);
    if s == list[0] {
      AbsentUntouched(next, account, m, list[1..], s);
    } else {
      FrameOn(logs, account, list[0], m, s);
      TruncatedLocal(next, logs, account, s, m);
      EachIsTruncated(next, account, m, list[1..], s);
    }
  }

  lemma FrameOn(logs: Logs, account: nat, t: SyncCollection, m: nat, s: SyncCollection)
    requires s != t
    ensures SameOn(Truncated(logs, account, t, m), logs, account, s)
  {
    forall k | Owns(s, account, k)
      ensures SameAt(Truncated(logs, account, t, m), logs, k)
    {
      if Owns(t, account, k) {
        OwnersAreDistinct(s, t, account, k);
      }
      TruncatedFrame(logs, account, t, m, k);
    }
  }

  lemma AllArePruned(s: SyncCollection)
    ensures s in PRUNED && Distinct(PRUNED)
  {
    match s
    case Email => assert PRUNED[0] == s;
    case Thread => assert PRUNED[1] == s;
    case Identity => assert PRUNED[2] == s;
    case EmailSubmission => assert PRUNED[3] == s;
    case SieveScript => assert PRUNED[4] == s;
    case FileNode => assert PRUNED[5] == s;
    case AddressBook => assert PRUNED[6] == s;
    case Calendar => assert PRUNED[7] == s;
    case CalendarEventNotification => assert PRUNED[8] == s;
  }

  /** What `delete_changes` leaves of the logs of an account, given how many entries each may keep. */
  ghost function Pruned(logs: Logs, account: nat, m: nat): Logs {
    TruncatedAll(logs, account, m, PRUNED)
  }

  lemma PrunedOn(logs: Logs, account: nat, m: nat, s: SyncCollection)
    ensures SameOn(Pruned(logs, account, m), Truncated(logs, account, s, m), account, s)
  {
    hide TruncatedAll, Truncated;
    AllArePruned(s);
    EachIsTruncated(logs, account, m, PRUNED, s);
  }

  ghost predicate IsOwned(account: nat, k: LogKey) {
    exists s :: Owns(s, account, k)
  }

  lemma PrunedElsewhere(logs: Logs, account: nat, m: nat, k: LogKey)
    requires !IsOwned(account, k)
    ensures SameAt(Pruned(logs, account, m), logs, k)
  {
    hide TruncatedAll, Owns;
    OthersUntouched(logs, account, m, PRUNED, k);
  }

  lemma SumSameOn(a: Logs, b: Logs, new_: Logs, account: nat, s: SyncCollection)
    requires SameOn(a, b, account, s)
    ensures SameOn(a + new_, b + new_, account, s)
  {
    hide Owns;
  }

  lemma ChainSameOn(a: Logs, b: Logs, c: Logs, account: nat, s: SyncCollection)
    requires SameOn(a, b, account, s) && SameOn(b, c, account, s)
    ensures SameOn(a, c, account, s)
  {
    hide Owns;
  }

  lemma SwapSameOn(a: Logs, b: Logs, account: nat, s: SyncCollection)
    requires SameOn(a, b, account, s)
    ensures SameOn(b, a, account, s)
  {
    hide Owns;
  }

  lemma SameEverywhere(a: Logs, b: Logs)
    requires forall k :: SameAt(a, b, k)
    ensures a == b
  {
    assert forall k :: SameAt(a, b, k) ==> (k in a <==> k in b);
  }

  /** What pruning has done so far to one log: nothing yet, or part of a truncation. */
  ghost predicate Underway(logs: Logs, h: Logs, account: nat, m: nat, s: SyncCollection) {
    var ids := Ids(logs, account, Code(s));
    SameOn(h, logs, account, s) || (|ids| > m && Partial(logs, h, account, s, Cut(ids, m)))
  }

  /** A state in which pruning may have been stopped: every log is underway, nothing else is touched. */
  ghost predicate Interrupted(logs: Logs, h: Logs, account: nat, m: nat) {
    && (forall s :: Underway(logs, h, account, m, s))
    && (forall k :: !IsOwned(account, k) ==> SameAt(h, logs, k))
  }

  lemma TruncateUnderway(logs: Logs, h: Logs, new_: Logs, account: nat, m: nat, s: SyncCollection)
    requires Newer(new_, logs, account, s) && Underway(logs, h, account, m, s)
    ensures SameOn(Truncated(h + new_, account, s, m), Truncated(logs + new_, account, s, m), account, s)
  {
    hide Newer, SameOn, Truncated, Partial;
    if SameOn(h, logs, account, s) {
      SumSameOn(h, logs, new_, account, s);
      TruncatedLocal(h + new_, logs + new_, account, s, m);
    } else {
      TruncateRest(logs, h, new_, account, s, m);
    }
  }

  lemma ResumeOn(logs: Logs, h: Logs, new_: Logs, account: nat, m: nat, s: SyncCollection)
    requires Newer(new_, logs, account, s) && Underway(logs, h, account, m, s)
    ensures SameOn(Pruned(h + new_, account, m), Pruned(logs + new_, account, m), account, s)
  {
    hide *;
    var a, b := Truncated(h + new_, account, s, m), Truncated(logs + new_, account, s, m);
    TruncateUnderway(logs, h, new_, account, m, s);
    PrunedOn(h + new_, account, m, s);
    PrunedOn(logs + new_, account, m, s);
    ChainSameOn(Pruned(h + new_, account, m), a, b, account, s);
    SwapSameOn(Pruned(logs + new_, account, m), b, account, s);
    ChainSameOn(Pruned(h + new_, account, m), b, Pruned(logs + new_, account, m), account, s);
  }

  /**
   Wherever pruning was stopped, and whatever newer changes were written since, pruning again leaves
   what one uninterrupted pruning at the end would have left.
   */
  lemma Resume(logs: Logs, h: Logs, new_: Logs, account: nat, m: nat)
    requires Interrupted(logs, h, account, m) && forall s :: Newer(new_, logs, account, s)
    ensures Pruned(h + new_, account, m) == Pruned(logs + new_, account, m)
  {
    hide Newer, Pruned, Owns, Underway;
    var twice, once := Pruned(h + new_, account, m), Pruned(logs + new_, account, m);
    forall k
      ensures SameAt(twice, once, k)
    {
      if IsOwned(account, k) {
        var s :| Owns(s, account, k);
        ResumeOn(logs, h, new_, account, m, s);
      } else {
        PrunedElsewhere(h + new_, account, m, k);
        PrunedElsewhere(logs + new_, account, m, k);
      }
    }
    SameEverywhere(twice, once);
  }

  lemma PrunedIsUnderway(logs: Logs, account: nat, m: nat, s: SyncCollection)
    ensures Underway(logs, Pruned(logs, account, m), account, m, s)
  {
    hide Pruned, Ids, TruncatedAt, Cleared, ClearedOption, Partial;
    PrunedOn(logs, account, m, s);
    if |Ids(logs, account, Code(s))| > m {
      WritesAreWithin(logs, account, m, s);
    }
    UnderwayStays(logs, Truncated(logs, account, s, m), Pruned(logs, account, m), account, m, s);
  }

  lemma PrunedIsInterrupted(logs: Logs, account: nat, m: nat)
    ensures Interrupted(logs, Pruned(logs, account, m), account, m)
  {
    hide Pruned, Underway, IsOwned;
    forall s
      ensures Underway(logs, Pruned(logs, account, m), account, m, s)
    {
      PrunedIsUnderway(logs, account, m, s);
    }
    forall k | !IsOwned(account, k)
      ensures SameAt(Pruned(logs, account, m), logs, k)
    {
      PrunedElsewhere(logs, account, m, k);
    }
  }

  /** Pruning early, between any two batches of changes, never changes what a later pruning leaves. */
  lemma PruneAgain(logs: Logs, new_: Logs, account: nat, m: nat)
    requires forall s :: Newer(new_, logs, account, s)
    ensures Pruned(Pruned(logs, account, m) + new_, account, m) == Pruned(logs + new_, account, m)
  {
    hide Pruned, Newer, Interrupted;
    PrunedIsInterrupted(logs, account, m);
    Resume(logs, Pruned(logs, account, m), new_, account, m);
  }

  /** Pruning a second time changes nothing. */
  lemma PruneIsIdempotent(logs: Logs, account: nat, m: nat)
    ensures Pruned(Pruned(logs, account, m), account, m) == Pruned(logs, account, m)
  {
    hide Pruned;
    PruneAgain(logs, map[], account, m);
    assert logs + map[] == logs;
    assert Pruned(logs, account, m) + map[] == Pruned(logs, account, m);
  }

  /** The logs of other accounts, and the account's other logs, are untouched. */
  lemma PruneIsConfined(logs: Logs, account: nat, m: nat, k: LogKey)
    requires k.account != account || k.collection == 9
    ensures SameAt(Pruned(logs, account, m), logs, k)
  {
    PrunedElsewhere(logs, account, m, k);
  }

  /** Every log of the account longer than `m` is left with its `m` newest entries and the marker. */
  lemma PruneMeans(logs: Logs, account: nat, m: nat, s: SyncCollection)
    ensures var ids, after := Ids(logs, account, Code(s)), Pruned(logs, account, m);
            if |ids| <= m then SameOn(after, logs, account, s)
            else LeftFrom(logs, after, account, Code(s), Cut(ids, m))
  {
    hide Pruned, Ids;
    var ids, after := Ids(logs, account, Code(s)), Pruned(logs, account, m);
    PrunedOn(logs, account, m, s);
    if |ids| > m {
      TruncatedMeans(logs, account, s, m);
      LeftFromSame(logs, Truncated(logs, account, s, m), after, account, s, Cut(ids, m));
    }
  }

  /** Of the vanished items of an over-long log, those from the marker on are left. */
  lemma PrunedVanished(logs: Logs, account: nat, m: nat, s: SyncCollection, k: LogKey)
    requires |Ids(logs, account, Code(s))| > m && k.account == account && VanishedCode(s) == Some(k.collection)
    ensures var after, x := Pruned(logs, account, m), Cut(Ids(logs, account, Code(s)), m);
            if k.id < x then k !in after else SameAt(after, logs, k)
  {
    hide Pruned, Ids;
    var x := Cut(Ids(logs, account, Code(s)), m);
    PrunedOn(logs, account, m, s);
    TruncatedKey(logs, account, s, x, k);
    assert SameAt(Pruned(logs, account, m), TruncatedAt(logs, account, s, x), k);
  }

  // ---- Key by key, by the codes in the store ----------------------------------------------------

  /** The log that decides what is left of a collection: its own, or the one whose vanished items it holds. */
  function Leader(c: byte): Option<byte> {
    if c <= 8 then Some(c)
    else if c == 251 then Some(0)
    else if c == 252 then Some(2)
    else if c == 253 then Some(3)
    else if c == 254 then Some(4)
    else None
  }

  /** The collection with a code. */
  lemma LeaderOwns(account: nat, k: LogKey) returns (s: SyncCollection)
    requires k.account == account && Leader(k.collection).Some?
    ensures Owns(s, account, k) && Leader(k.collection) == Some(Code(s))
  {
    var c := Leader(k.collection).value;
    s := if c == 0 then Email else if c == 1 then Thread else if c == 2 then Calendar else if c == 3 then AddressBook
    else if c == 4 then FileNode else if c == 5 then Identity else if c == 6 then EmailSubmission
    else if c == 7 then SieveScript else CalendarEventNotification;
  }

  lemma NoLeaderNotOwned(account: nat, k: LogKey)
    requires k.account != account || Leader(k.collection).None?
    ensures !IsOwned(account, k)
  {
  }

  /**
   What pruning leaves at every key of the store: nothing below the cut of the log that decides, an
   empty entry at the cut in that log itself, and everything else as it was.
   */
  lemma PrunedKey(logs: Logs, account: nat, m: nat, k: LogKey)
    ensures var after, c := Pruned(logs, account, m), Leader(k.collection);
            if k.account != account || c.None? then SameAt(after, logs, k)
            else
              var ids := Ids(logs, account, c.value);
              if |ids| <= m then SameAt(after, logs, k)
              else
                var x := Cut(ids, m);
                if k.id < x then k !in after
                else if k == LogKey(account, c.value, x) then k in after && after[k] == []
                else SameAt(after, logs, k)
  {
    hide Pruned, Ids, Owns, IsOwned, Leader;
    if k.account != account || Leader(k.collection).None? {
      NoLeaderNotOwned(account, k);
      PrunedElsewhere(logs, account, m, k);
    } else {
      var s := LeaderOwns(account, k);
      PrunedOn(logs, account, m, s);
      assert SameAt(Pruned(logs, account, m), Truncated(logs, account, s, m), k);
      if |Ids(logs, account, Code(s))| > m {
        TruncatedKey(logs, account, s, Cut(Ids(logs, account, Code(s)), m), k);
      }
    }
  }

  lemma LeftFromSame(logs: Logs, one: Logs, all: Logs, account: nat, s: SyncCollection, x: nat)
    requires LeftFrom(logs, one, account, Code(s), x) && SameOn(all, one, account, s)
    ensures LeftFrom(logs, all, account, Code(s), x)
  {
    SameIds(all, one, account, s);
    hide Ids;
    assert Owns(s, account, LogKey(account, Code(s), x));
    forall i | i in Above(Ids(logs, account, Code(s)), x)
      ensures SameAt(all, logs, LogKey(account, Code(s), i))
    {
      assert Owns(s, account, LogKey(account, Code(s), i));
    }
  }

  // ---- States in between ------------------------------------------------------------------------

  /** A state while one log is truncated: that log is underway, and nothing else differs. */
  ghost predicate Within(logs: Logs, h: Logs, account: nat, m: nat, s: SyncCollection) {
    Underway(logs, h, account, m, s) && forall k :: !Owns(s, account, k) ==> SameAt(h, logs, k)
  }

  lemma PartialTransfers(a: Logs, b: Logs, h: Logs, account: nat, s: SyncCollection, x: nat)
    requires SameOn(a, b, account, s) && Partial(a, h, account, s, x)
    ensures Partial(b, h, account, s, x)
  {
    hide Owns;
  }

  lemma UnderwayTransfers(start: Logs, logs: Logs, h: Logs, account: nat, m: nat, s: SyncCollection)
    requires SameOn(logs, start, account, s) && Underway(logs, h, account, m, s)
    ensures Underway(start, h, account, m, s)
  {
    hide SameOn, Partial, Ids;
    SameIds(logs, start, account, s);
    if SameOn(h, logs, account, s) {
      ChainSameOn(h, logs, start, account, s);
    } else {
      PartialTransfers(logs, start, h, account, s, Cut(Ids(logs, account, Code(s)), m));
    }
  }

  lemma UnderwayStays(start: Logs, logs: Logs, h: Logs, account: nat, m: nat, s: SyncCollection)
    requires Underway(start, logs, account, m, s) && SameOn(h, logs, account, s)
    ensures Underway(start, h, account, m, s)
  {
    hide Ids;
    if SameOn(logs, start, account, s) {
      ChainSameOn(h, logs, start, account, s);
    } else {
      var x := Cut(Ids(start, account, Code(s)), m);
      assert Owns(s, account, LogKey(account, Code(s), x));
    }
  }

  /** Truncating a log that pruning has not come to yet stays within where it may be interrupted. */
  lemma WithinInterrupted(start: Logs, logs: Logs, h: Logs, account: nat, m: nat, s: SyncCollection)
    requires Interrupted(start, logs, account, m) && SameOn(logs, start, account, s) && Within(logs, h, account, m, s)
    ensures Interrupted(start, h, account, m)
  {
    hide Underway;
    forall t
      ensures Underway(start, h, account, m, t)
    {
      if t == s {
        UnderwayTransfers(start, logs, h, account, m, s);
      } else {
        forall k | Owns(t, account, k)
          ensures SameAt(h, logs, k)
        {
          if Owns(s, account, k) {
            OwnersAreDistinct(s, t, account, k);
          }
        }
        UnderwayStays(start, logs, h, account, m, t);
      }
    }
    forall k | !IsOwned(account, k)
      ensures SameAt(h, start, k)
    {
      assert !Owns(s, account, k);
      assert SameAt(h, logs, k) && SameAt(logs, start, k);
    }
  }

  /** The writes that truncate one log, key by key: a key keeps its entry, loses it, or is the marker. */
  ghost predicate OnTheWay(logs: Logs, h: Logs, account: nat, s: SyncCollection, x: nat, k: LogKey) {
    var marker := LogKey(account, Code(s), x);
    if k == marker then k in h
    else if Owns(s, account, k) && k.id < x then k in h ==> k in logs
    else SameAt(h, logs, k)
  }

  lemma WritesAreOnTheWay(logs: Logs, account: nat, s: SyncCollection, x: nat, k: LogKey)
    requires LogKey(account, Code(s), x) in logs
    ensures var first := Cleared(logs, account, Code(s), x);
            && OnTheWay(logs, first, account, s, x, k)
            && OnTheWay(logs, ClearedOption(first, account, VanishedCode(s), x), account, s, x, k)
            && OnTheWay(logs, TruncatedAt(logs, account, s, x), account, s, x, k)
  {
  }

  lemma OnTheWayIsWithin(logs: Logs, h: Logs, account: nat, m: nat, s: SyncCollection)
    requires |Ids(logs, account, Code(s))| > m
    requires forall k :: OnTheWay(logs, h, account, s, Cut(Ids(logs, account, Code(s)), m), k)
    ensures Within(logs, h, account, m, s)
  {
    hide Ids, VanishedCode;
    var x := Cut(Ids(logs, account, Code(s)), m);
    var marker := LogKey(account, Code(s), x);
    assert OnTheWay(logs, h, account, s, x, marker);
    forall k
      ensures Owns(s, account, k) && k in h ==> k in logs || k == marker
      ensures Owns(s, account, k) && k.id >= x && k != marker ==> SameAt(h, logs, k)
      ensures !Owns(s, account, k) ==> SameAt(h, logs, k)
    {
      assert OnTheWay(logs, h, account, s, x, k);
    }
  }

  /** The states between the writes that truncate one log. */
  lemma WritesAreWithin(logs: Logs, account: nat, m: nat, s: SyncCollection)
    requires |Ids(logs, account, Code(s))| > m
    ensures var x := Cut(Ids(logs, account, Code(s)), m);
            var first := Cleared(logs, account, Code(s), x);
            && Within(logs, first, account, m, s)
            && Within(logs, ClearedOption(first, account, VanishedCode(s), x), account, m, s)
            && Within(logs, TruncatedAt(logs, account, s, x), account, m, s)
  {
    var x := Cut(Ids(logs, account, Code(s)), m);
    MarkerIsThere(logs, account, Code(s), x);
    hide Ids, OnTheWay, Within, Cleared, ClearedOption, TruncatedAt;
    var first := Cleared(logs, account, Code(s), x);
    var second, third := ClearedOption(first, account, VanishedCode(s), x), TruncatedAt(logs, account, s, x);
    forall k
      ensures OnTheWay(logs, first, account, s, x, k) && OnTheWay(logs, second, account, s, x, k)
      ensures OnTheWay(logs, third, account, s, x, k)
    {
      WritesAreOnTheWay(logs, account, s, x, k);
    }
    OnTheWayIsWithin(logs, first, account, m, s);
    OnTheWayIsWithin(logs, second, account, m, s);
    OnTheWayIsWithin(logs, third, account, m, s);
  }

  lemma MarkerIsThere(logs: Logs, account: nat, c: byte, x: nat)
    requires x in Ids(logs, account, c)
    ensures LogKey(account, c, x) in logs
  {
  }

  lemma NotYet(start: Logs, logs: Logs, account: nat, m: nat, i: nat)
    requires i < |PRUNED| && forall j :: i <= j < |PRUNED| ==> SameOn(logs, start, account, PRUNED[j])
    ensures forall j :: i < j < |PRUNED| ==> SameOn(Truncated(logs, account, PRUNED[i], m), start, account, PRUNED[j])
  {
    hide SameOn, Truncated;
    AllArePruned(Email);
    forall j | i < j < |PRUNED|
      ensures SameOn(Truncated(logs, account, PRUNED[i], m), start, account, PRUNED[j])
    {
      FrameOn(logs, account, PRUNED[i], m, PRUNED[j]);
      ChainSameOn(Truncated(logs, account, PRUNED[i], m), logs, start, account, PRUNED[j]);
    }
  }
}
