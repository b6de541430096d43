/**
 Pruning while the server is live: between the scan of a log and each of the writes that follow it,
 other tasks may append newer changes to any log.
 */
module ChangeLogLive {
  import opened Basics
  import opened ChangeLog
  import opened ChangeLogPruning

  /** What is next for the log that pruning has come to; `cut` is what its scan found. */
  datatype Stage = ToScan | ToClear(cut: nat) | ToClearVanished(cut: nat) | ToMark(cut: nat)

  /** `all` is everything that was ever in the logs; `next` counts the logs that are finished. */
  datatype State = State(logs: Logs, all: Logs, next: nat, stage: Stage)

  datatype Event = Work | Arrive(new_: Logs)

  ghost predicate AllNewer(new_: Logs, logs: Logs, account: nat) {
    forall s :: Newer(new_, logs, account, s)
  }

  /** One scan or one write of the pruning task. */
  ghost function Worked(st: State, account: nat, m: nat): State
    requires st.next < |PRUNED|
  {
    var s, logs := PRUNED[st.next], st.logs;
    match st.stage
    case ToScan =>
      var ids := Ids(logs, account, Code(s));
      if |ids| <= m then st.(next := st.next + 1) else st.(stage := ToClear(Cut(ids, m)))
    case ToClear(x) => st.(logs := Cleared(logs, account, Code(s), x), stage := ToClearVanished(x))
    case ToClearVanished(x) => st.(logs := ClearedOption(logs, account, VanishedCode(s), x), stage := ToMark(x))
    case ToMark(x) => st.(logs := logs[LogKey(account, Code(s), x) := []], next := st.next + 1, stage := ToScan)
  }

  ghost function Step(st: State, e: Event, account: nat, m: nat): Option<State> {
    match e
    case Work => if st.next < |PRUNED| then Some(Worked(st, account, m)) else None
    case Arrive(new_) =>
      if AllNewer(new_, st.all, account) then Some(st.(logs := st.logs + new_, all := st.all + new_)) else None
  }

  ghost function Exec(st: State, events: seq<Event>, account: nat, m: nat): Option<State>
    decreases |events|
  {
    if events == [] then Some(st)
    else
      var r := Step(st, events[0], account, m);
      if r.None? then None else Exec(r.value, events[1..], account, m)
  }

  function Begin(logs: Logs): State {
    State(logs, logs, 0, ToScan)
  }

  // ---- What arrivals keep -----------------------------------------------------------------------

  /** A log partly truncated at its cut or before, to be truncated at `x`. */
  ghost predicate Cutting(logs: Logs, h: Logs, account: nat, m: nat, s: SyncCollection, x: nat) {
    var ids := Ids(logs, account, Code(s));
    x in ids && |ids| > m && x <= Cut(ids, m) && Partial(logs, h, account, s, Cut(ids, m))
  }

  /** The cut moves up with the entries that arrive, and the log is partly truncated at the new one. */
  lemma ArrivalMovesCut(logs: Logs, h: Logs, new_: Logs, account: nat, m: nat, s: SyncCollection)
    requires Newer(new_, logs, account, s) && |Ids(logs, account, Code(s))| > m
    requires Partial(logs, h, account, s, Cut(Ids(logs, account, Code(s)), m))
    ensures var ids, after := Ids(logs, account, Code(s)), Ids(logs + new_, account, Code(s));
            && ids <= after && |after| > m && Cut(ids, m) <= Cut(after, m)
            && Partial(logs + new_, h + new_, account, s, Cut(after, m))
  {
    var c := Code(s);
    var ids, left, more := Ids(logs, account, c), Ids(h, account, c), Ids(new_, account, c);
    var x := Cut(ids, m);
    IdsOfSum(logs, new_, account, c);
    IdsOfSum(h, new_, account, c);
    PartialIds(logs, h, account, s, x);
    SubsetSize(ids, ids + more);
    NewerIds(logs, new_, account, s);
    var y := Cut(ids + more, m);
    MarkerIsThere(logs, account, c, x);
    hide Ids, Above, Newer, Partial;
    CutMovesUp(ids, left, x, more, m, y);
    PartialGrows(logs, h, new_, account, s, x, y);
  }

  lemma PartialGrows(logs: Logs, h: Logs, new_: Logs, account: nat, s: SyncCollection, x: nat, y: nat)
    requires Partial(logs, h, account, s, x) && x <= y && LogKey(account, Code(s), x) in logs
    requires y in Ids(h, account, Code(s)) + Ids(new_, account, Code(s))
    ensures Partial(logs + new_, h + new_, account, s, y)
  {
    hide Owns;
    assert LogKey(account, Code(s), y) in h + new_;
  }

  lemma ArrivalUnderway(logs: Logs, h: Logs, new_: Logs, account: nat, m: nat, s: SyncCollection)
    requires Newer(new_, logs, account, s) && Underway(logs, h, account, m, s)
    ensures Underway(logs + new_, h + new_, account, m, s)
  {
    hide Newer, SameOn, Partial, Ids;
    if SameOn(h, logs, account, s) {
      SumSameOn(h, logs, new_, account, s);
    } else {
      ArrivalMovesCut(logs, h, new_, account, m, s);
    }
  }

  /** Newer changes may arrive wherever pruning stands. */
  lemma ArrivalInterrupted(logs: Logs, h: Logs, new_: Logs, account: nat, m: nat)
    requires AllNewer(new_, logs, account) && Interrupted(logs, h, account, m)
    ensures Interrupted(logs + new_, h + new_, account, m)
  {
    hide Newer, Underway, IsOwned;
    forall s
      ensures Underway(logs + new_, h + new_, account, m, s)
    {
      ArrivalUnderway(logs, h, new_, account, m, s);
    }
  }

  // ---- What the pruning task keeps --------------------------------------------------------------

  /**
   Every log is untouched or partly truncated at its cut; the log being worked on, at a cut that
   may have moved up since it was scanned; and those still to come are untouched.
   */
  ghost predicate Sound(st: State, account: nat, m: nat) {
    && Interrupted(st.all, st.logs, account, m)
    && (st.stage.ToScan? || st.next < |PRUNED|)
    && (forall j :: (if st.stage.ToScan? then st.next else st.next + 1) <= j < |PRUNED| ==>
          SameOn(st.logs, st.all, account, PRUNED[j]))
    && (!st.stage.ToScan? ==> Cutting(st.all, st.logs, account, m, PRUNED[st.next], st.stage.cut))
  }

  /** The write touches only what the log owns, below the cut or at it. */
  ghost predicate Trims(h: Logs, after: Logs, account: nat, s: SyncCollection, x: nat) {
    var marker := LogKey(account, Code(s), x);
    && (forall k :: !(Owns(s, account, k) && (k.id < x || k == marker)) ==> SameAt(after, h, k))
    && (forall k :: k in after ==> k in h || k == marker)
    && (marker in h ==> marker in after)
  }

  lemma WriteTrims(st: State, account: nat, m: nat)
    requires st.next < |PRUNED| && !st.stage.ToScan?
    ensures Trims(st.logs, Worked(st, account, m).logs, account, PRUNED[st.next], st.stage.cut)
  {
  }

  lemma TrimmedIsPartial(logs: Logs, h: Logs, after: Logs, account: nat, s: SyncCollection, x: nat, y: nat)
    requires Partial(logs, h, account, s, y) && Trims(h, after, account, s, x) && x <= y
    requires LogKey(account, Code(s), x) in logs
    ensures Partial(logs, after, account, s, y)
  {
    hide VanishedCode;
    var marker := LogKey(account, Code(s), y);
    assert SameAt(after, h, marker) || x == y;
    forall k | Owns(s, account, k) && k.id >= y && k != marker
      ensures SameAt(after, logs, k)
    {
      assert SameAt(after, h, k) && SameAt(h, logs, k);
    }
  }

  lemma TrimmedElsewhere(h: Logs, after: Logs, account: nat, s: SyncCollection, x: nat, t: SyncCollection)
    requires Trims(h, after, account, s, x) && s != t
    ensures SameOn(after, h, account, t)
  {
    forall k | Owns(t, account, k)
      ensures SameAt(after, h, k)
    {
      if Owns(s, account, k) {
        OwnersAreDistinct(s, t, account, k);
      }
    }
  }

  lemma TrimmedInterrupted(logs: Logs, h: Logs, after: Logs, account: nat, m: nat, s: SyncCollection, x: nat)
    requires Interrupted(logs, h, account, m) && Cutting(logs, h, account, m, s, x) && Trims(h, after, account, s, x)
    ensures Cutting(logs, after, account, m, s, x) && Interrupted(logs, after, account, m)
  {
    hide Ids, Trims, Partial, SameOn;
    var ids := Ids(logs, account, Code(s));
    MarkerIsThere(logs, account, Code(s), x);
    TrimmedIsPartial(logs, h, after, account, s, x, Cut(ids, m));
    forall t
      ensures Underway(logs, after, account, m, t)
    {
      if t != s {
        TrimmedElsewhere(h, after, account, s, x, t);
        hide Underway;
        UnderwayStays(logs, h, after, account, m, t);
      }
    }
    hide Underway;
    forall k | !IsOwned(account, k)
      ensures SameAt(after, logs, k)
    {
      TrimmedUnowned(h, after, account, s, x, k);
    }
  }

  lemma TrimmedUnowned(h: Logs, after: Logs, account: nat, s: SyncCollection, x: nat, k: LogKey)
    requires Trims(h, after, account, s, x) && !IsOwned(account, k)
    ensures SameAt(after, h, k)
  {
    assert !Owns(s, account, k);
  }

  lemma WriteSound(st: State, account: nat, m: nat)
    requires Sound(st, account, m) && st.next < |PRUNED| && !st.stage.ToScan?
    ensures Sound(Worked(st, account, m), account, m)
  {
    hide Interrupted, Cutting, Trims, SameOn, Cleared, ClearedOption;
    var s, after := PRUNED[st.next], Worked(st, account, m).logs;
    WriteTrims(st, account, m);
    TrimmedInterrupted(st.all, st.logs, after, account, m, s, st.stage.cut);
    AllArePruned(Email);
    forall j | st.next < j < |PRUNED|
      ensures SameOn(after, st.all, account, PRUNED[j])
    {
      TrimmedElsewhere(st.logs, after, account, s, st.stage.cut, PRUNED[j]);
      ChainSameOn(after, st.logs, st.all, account, PRUNED[j]);
    }
  }

  lemma ScanSound(st: State, account: nat, m: nat)
    requires Sound(st, account, m) && st.next < |PRUNED| && st.stage.ToScan?
    ensures Sound(Worked(st, account, m), account, m)
  {
    hide Interrupted, SameOn;
    var s := PRUNED[st.next];
    var ids := Ids(st.logs, account, Code(s));
    SameIds(st.logs, st.all, account, s);
    if |ids| > m {
      SameIsPartial(st.all, st.logs, account, s, Cut(ids, m));
    }
  }

  lemma SameIsPartial(logs: Logs, h: Logs, account: nat, s: SyncCollection, x: nat)
    requires SameOn(h, logs, account, s) && x in Ids(logs, account, Code(s))
    ensures Partial(logs, h, account, s, x)
  {
    var marker := LogKey(account, Code(s), x);
    assert marker in logs && Owns(s, account, marker);
  }

  lemma ArrivalSound(st: State, new_: Logs, account: nat, m: nat)
    requires Sound(st, account, m) && AllNewer(new_, st.all, account)
    ensures Sound(st.(logs := st.logs + new_, all := st.all + new_), account, m)
  {
    hide Newer, SameOn, Interrupted, Partial, Ids;
    ArrivalInterrupted(st.all, st.logs, new_, account, m);
    forall j | (if st.stage.ToScan? then st.next else st.next + 1) <= j < |PRUNED|
      ensures SameOn(st.logs + new_, st.all + new_, account, PRUNED[j])
    {
      SumSameOn(st.logs, st.all, new_, account, PRUNED[j]);
    }
    if !st.stage.ToScan? {
      ArrivalMovesCut(st.all, st.logs, new_, account, m, PRUNED[st.next]);
    }
  }

  lemma StepSound(st: State, e: Event, account: nat, m: nat)
    requires Sound(st, account, m) && Step(st, e, account, m).Some?
    ensures Sound(Step(st, e, account, m).value, account, m)
  {
    hide Sound, Worked, AllNewer;
    if e.Arrive? {
      ArrivalSound(st, e.new_, account, m);
    } else if st.stage.ToScan? {
      ScanSound(st, account, m);
    } else {
      WriteSound(st, account, m);
    }
  }

  lemma {:induction false} ExecSound(st: State, events: seq<Event>, account: nat, m: nat)
    requires Sound(st, account, m) && Exec(st, events, account, m).Some?
    ensures Sound(Exec(st, events, account, m).value, account, m)
    decreases |events|
  {
    hide Sound, Step;
    if events != [] {
      StepSound(st, events[0], account, m);
      ExecSound(Step(st, events[0], account, m).value, events[1..], account, m);
    }
  }

  lemma BeginSound(logs: Logs, account: nat, m: nat)
    ensures Sound(Begin(logs), account, m)
  {
  }

  /**
   Whatever newer changes arrive between the scans and the writes, and wherever the run stands or was
   cut off: of every log at most entries below its cut are gone, the `m` newest are as they were
   written, and nothing else of the store is touched; and the next pruning leaves what one pruning of
   everything ever written would have left.
   */
  lemma LivePruning(logs: Logs, events: seq<Event>, new_: Logs, account: nat, m: nat)
    requires Exec(Begin(logs), events, account, m).Some?
    requires AllNewer(new_, Exec(Begin(logs), events, account, m).value.all, account)
    ensures var end := Exec(Begin(logs), events, account, m).value;
            && Interrupted(end.all, end.logs, account, m)
            && Pruned(end.logs + new_, account, m) == Pruned(end.all + new_, account, m)
  {
    hide Exec, Interrupted, Newer, Pruned;
    BeginSound(logs, account, m);
    ExecSound(Begin(logs), events, account, m);
    var end := Exec(Begin(logs), events, account, m).value;
    Resume(end.all, end.logs, new_, account, m);
  }

  // ---- Without arrivals -------------------------------------------------------------------------

  /** The logs once the log being worked on is finished, with nobody else writing. */
  ghost function Done(logs: Logs, s: SyncCollection, stage: Stage, account: nat, m: nat): Logs {
    match stage
    case ToScan => Truncated(logs, account, s, m)
    case ToClear(x) => TruncatedAt(logs, account, s, x)
    case ToClearVanished(x) => ClearedOption(logs, account, VanishedCode(s), x)[LogKey(account, Code(s), x) := []]
    case ToMark(x) => logs[LogKey(account, Code(s), x) := []]
  }

  /** And once all are. */
  ghost function Rest(st: State, account: nat, m: nat): Logs
    requires st.next <= |PRUNED|
  {
    if st.next == |PRUNED| then st.logs
    else TruncatedAll(Done(st.logs, PRUNED[st.next], st.stage, account, m), account, m, PRUNED[st.next + 1..])
  }

  lemma WorkedIsDone(st: State, account: nat, m: nat)
    requires st.next < |PRUNED|
    ensures var s, st' := PRUNED[st.next], Worked(st, account, m);
            if st'.next == st.next then Done(st'.logs, s, st'.stage, account, m) == Done(st.logs, s, st.stage, account, m)
            else st' == State(Done(st.logs, s, st.stage, account, m), st.all, st.next + 1, ToScan)
  {
    hide Cleared, ClearedOption, Ids;
  }

  lemma RestIs(st: State, account: nat, m: nat)
    requires st.next < |PRUNED|
    ensures Rest(st, account, m) ==
            TruncatedAll(Done(st.logs, PRUNED[st.next], st.stage, account, m), account, m, PRUNED[st.next + 1..])
  {
    hide Done, TruncatedAll;
  }

  lemma NextRest(logs: Logs, all: Logs, i: nat, account: nat, m: nat)
    requires i < |PRUNED|
    ensures Rest(State(logs, all, i + 1, ToScan), account, m) == TruncatedAll(logs, account, m, PRUNED[i + 1..])
  {
    hide Truncated, TruncatedAll;
    if i + 1 < |PRUNED| {
      RestIs(State(logs, all, i + 1, ToScan), account, m);
      TruncatedFirst(logs, account, m, PRUNED, i + 1);
    } else {
      TruncatedNone(logs, account, m, PRUNED, i + 1);
    }
  }

  lemma TruncatedFirst(logs: Logs, account: nat, m: nat, list: seq<SyncCollection>, i: nat)
    requires i < |list|
    ensures TruncatedAll(logs, account, m, list[i..]) ==
            TruncatedAll(Truncated(logs, account, list[i], m), account, m, list[i + 1..])
  {
    hide Truncated;
    assert list[i..][0] == list[i] && list[i..][1..] == list[i + 1..];
  }

  lemma TruncatedNone(logs: Logs, account: nat, m: nat, list: seq<SyncCollection>, i: nat)
    requires i == |list|
    ensures TruncatedAll(logs, account, m, list[i..]) == logs
  {
    assert list[i..] == [];
  }

  lemma WorkedRest(st: State, account: nat, m: nat)
    requires st.next < |PRUNED|
    ensures var st' := Worked(st, account, m);
            st'.next <= |PRUNED| && Rest(st', account, m) == Rest(st, account, m)
  {
    hide Worked, Done, Rest, TruncatedAll;
    var st' := Worked(st, account, m);
    WorkedIsDone(st, account, m);
    RestIs(st, account, m);
    if st'.next == st.next {
      RestIs(st', account, m);
    } else {
      NextRest(st'.logs, st.all, st.next, account, m);
    }
  }

  lemma {:induction false} ExecRest(st: State, events: seq<Event>, account: nat, m: nat)
    requires st.next <= |PRUNED|
    requires (forall i :: 0 <= i < |events| ==> events[i].Work?) && Exec(st, events, account, m).Some?
    ensures var end := Exec(st, events, account, m).value;
            end.next <= |PRUNED| && Rest(end, account, m) == Rest(st, account, m)
    decreases |events|
  {
    hide Rest, Worked;
    if events != [] {
      WorkedRest(st, account, m);
      ExecRest(Worked(st, account, m), events[1..], account, m);
    }
  }

  /** A run to the end with nobody else writing is a pruning of all logs. */
  lemma QuietPruning(logs: Logs, events: seq<Event>, account: nat, m: nat)
    requires (forall i :: 0 <= i < |events| ==> events[i].Work?) && Exec(Begin(logs), events, account, m).Some?
    requires Exec(Begin(logs), events, account, m).value.next == |PRUNED|
    ensures Exec(Begin(logs), events, account, m).value.logs == Pruned(logs, account, m)
  {
    ExecRest(Begin(logs), events, account, m);
    hide Exec, Truncated, TruncatedAll;
    TruncatedFirst(logs, account, m, PRUNED, 0);
    assert PRUNED[0..] == PRUNED;
  }
}
