/** Change-log truncation as it runs: a descending scan of each log, then range deletes and a marker. */
module ChangeLogStore {
  import opened Basics
  import opened ChangeLog
  import opened ChangeLogPruning

  // ---- Scanning a log ---------------------------------------------------------------------------

  /** The ids passed are the newest ones, down to `first`. */
  predicate Scanned(ids: set<nat>, todo: set<nat>, num: nat, first: nat) {
    && todo <= ids && num + |todo| == |ids|
    && (num == 0 ==> todo == ids)
    && (num > 0 ==> first in ids && ids - todo == Above(ids, first) + {first})
  }

  lemma ScanStep(ids: set<nat>, todo: set<nat>, num: nat, first: nat, top: nat)
    requires Scanned(ids, todo, num, first) && IsMax(todo, top)
    ensures Scanned(ids, todo - {top}, num + 1, top)
  {
    forall i
      ensures i in ids - (todo - {top}) <==> i in Above(ids, top) + {top}
    {
      if num > 0 {
        assert i in ids - todo <==> i in Above(ids, first) + {first};
        assert top in ids - todo <==> top in Above(ids, first) + {first};
      }
    }
  }

  lemma ScanEnd(ids: set<nat>, todo: set<nat>, num: nat, first: nat, m: nat)
    requires Scanned(ids, todo, num, first) && num <= m + 1 && (todo == {} || num > m)
    ensures if num > m then IsCut(ids, m, first) else |ids| <= m
  {
    if num > m {
      assert |ids - todo| == num;
      assert first !in Above(ids, first);
    }
  }

  // ---- The operation ----------------------------------------------------------------------------

  /** `writes` records the logs after each write, where a run may be cut off. */
  class Store {
    var logs: Logs
    ghost var writes: seq<Logs>

    constructor (logs: Logs)
      ensures this.logs == logs && writes == []
    {
      this.logs := logs;
      writes := [];
    }

    method DeleteRange(account: nat, collection: byte, end: nat)
      modifies this
      ensures logs == Cleared(old(logs), account, collection, end) && writes == old(writes) + [logs]
    {
      logs := map k | k in logs && !InRange(k, account, collection, end) :: logs[k];
      writes := writes + [logs];
    }

    method SetEmpty(key: LogKey)
      modifies this
      ensures logs == old(logs)[key := []] && writes == old(writes) + [logs]
    {
      logs := logs[key := []];
      writes := writes + [logs];
    }

    /** Walks a log from its newest entry down, for as long as `m` entries have not been passed. */
    method Scan(account: nat, collection: byte, m: nat) returns (firstChangeId: nat, numChanges: nat)
      ensures var ids := Ids(logs, account, collection);
              if numChanges > m then IsCut(ids, m, firstChangeId) else |ids| <= m
    {
      firstChangeId, numChanges := 0, 0;
      var todo := Ids(logs, account, collection);
      ghost var ids := todo;
      while todo != {} && numChanges <= m
        invariant Scanned(ids, todo, numChanges, firstChangeId) && numChanges <= m + 1
        decreases |todo|
      {
        ghost var newest := MaxExists(todo);
        var id :| id in todo && forall i :: i in todo ==> i <= id;
        ScanStep(ids, todo, numChanges, firstChangeId, id);
        firstChangeId := id;
        todo := todo - {id};
        numChanges := numChanges + 1;
      }
      ScanEnd(ids, todo, numChanges, firstChangeId, m);
    }

    method DeleteCollection(account: nat, s: SyncCollection, m: nat)
      modifies this
      ensures logs == Truncated(old(logs), account, s, m) && old(writes) <= writes
      ensures forall i :: |old(writes)| <= i < |writes| ==> Within(old(logs), writes[i], account, m, s)
      ensures Within(old(logs), logs, account, m, s)
    {
      hide Within, Cleared, Ids, Above;
      var firstChangeId, numChanges := Scan(account, Code(s), m);
      if numChanges > m {
        ghost var ids := Ids(logs, account, Code(s));
        CutFits(ids, m, firstChangeId);
        CutIsUnique(ids, m, firstChangeId, Cut(ids, m));
        WritesAreWithin(logs, account, m, s);
        DeleteRange(account, Code(s), firstChangeId);
        var vanished := VanishedCode(s);
        if vanished.Some? {
          DeleteRange(account, vanished.value, firstChangeId);
        }
        SetEmpty(LogKey(account, Code(s), firstChangeId));
      } else {
        NothingIsWithin(logs, account, m, s);
      }
    }

    /**
     `cutoff` is the id of the oldest share notification to keep. Cut off after any write before
     the last one, it leaves logs from which another run goes on as if nothing had happened.
     */
    method DeleteChanges(account: nat, maxEntries: Option<nat>, cutoff: Option<nat>)
      modifies this
      ensures var pruned := if maxEntries.Some? then Pruned(old(logs), account, maxEntries.value) else old(logs);
              logs == if cutoff.Some? then Cleared(pruned, account, 9, cutoff.value) else pruned
      ensures maxEntries.Some? ==>
                forall i :: |old(writes)| <= i < (if cutoff.Some? then |writes| - 1 else |writes|) ==>
                  Interrupted(old(logs), writes[i], account, maxEntries.value)
    {
      if maxEntries.Some? {
        PruneChanges(account, maxEntries.value);
      }
      if cutoff.Some? {
        DeleteRange(account, SHARE_NOTIFICATION, cutoff.value);
      }
    }

    method PruneChanges(account: nat, m: nat)
      modifies this
      ensures logs == Pruned(old(logs), account, m) && old(writes) <= writes
      ensures forall i :: |old(writes)| <= i < |writes| ==> Interrupted(old(logs), writes[i], account, m)
    {
      hide Truncated, Within, Interrupted, SameOn;
      ghost var start := logs;
      NothingIsInterrupted(start, account, m);
      for i := 0 to |PRUNED|
        invariant Pruned(start, account, m) == TruncatedAll(logs, account, m, PRUNED[i..])
        invariant old(writes) <= writes && Interrupted(start, logs, account, m)
        invariant forall j :: i <= j < |PRUNED| ==> SameOn(logs, start, account, PRUNED[j])
        invariant forall k :: |old(writes)| <= k < |writes| ==> Interrupted(start, writes[k], account, m)
      {
        assert PRUNED[i..][0] == PRUNED[i] && PRUNED[i..][1..] == PRUNED[i + 1..];
        ghost var before, count := logs, |writes|;
        NotYet(start, before, account, m, i);
        DeleteCollection(account, PRUNED[i], m);
        forall k | count <= k < |writes|
          ensures Interrupted(start, writes[k], account, m)
        {
          WithinInterrupted(start, before, writes[k], account, m, PRUNED[i]);
        }
        WithinInterrupted(start, before, logs, account, m, PRUNED[i]);
      }
    }
  }

  lemma NothingIsWithin(logs: Logs, account: nat, m: nat, s: SyncCollection)
    ensures Within(logs, logs, account, m, s)
  {
  }

  lemma NothingIsInterrupted(logs: Logs, account: nat, m: nat)
    ensures Interrupted(logs, logs, account, m)
    ensures forall j :: 0 <= j < |PRUNED| ==> SameOn(logs, logs, account, PRUNED[j])
  {
  }
}
