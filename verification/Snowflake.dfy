/**
 Change and message ids: 43 bits of milliseconds since an epoch, a 12-bit counter and a 9-bit node
 id, packed in a 64-bit word. The counter is never reset; only its low bits are used.
 */
module Snowflake {
  import opened Basics

  const SEQUENCES := 4096
  const NODES := 512
  const TICK := 2097152 // one millisecond, as an id: SEQUENCES * NODES
  const MAX_MILLIS := 0x800_0000_0000 // 2 to the 43rd
  const DEFAULT_EPOCH := 1632280000
  const NANOS := 1000000 // in a millisecond

  /** The id made at `millis` by the counter value `sequence`. */
  function IdOf(millis: nat, sequence: nat, nodeId: nat): nat {
    millis * TICK % WORD64 + sequence % SEQUENCES * NODES + nodeId % NODES
  }

  class SnowflakeIdGenerator {
    const nodeId: nat
    var sequence: u64

    constructor WithNodeId(nodeId: nat)
      ensures this.nodeId == nodeId && sequence == 0
    {
      this.nodeId := nodeId;
      sequence := 0;
    }

    method Generate(elapsed: Option<nat>) returns (id: nat)
      modifies this
      ensures id == IdOf(Millis(elapsed), old(sequence), nodeId)
      ensures sequence == (old(sequence) + 1) % WORD64
    {
      var millis := if elapsed.Some? then elapsed.value / NANOS else 0;
      id := millis * TICK % WORD64 + sequence % SEQUENCES * NODES + nodeId % NODES;
      sequence := (sequence + 1) % WORD64;
    }

    /** A run of calls, each with what the clock says. */
    method GenerateAll(clock: seq<Option<nat>>) returns (ids: seq<nat>)
      modifies this
      ensures ids == RunIds(MillisOf(clock), old(sequence), nodeId)
    {
      hide IdOf, RunIds, MillisOf, Millis;
      ids := [];
      NothingRun(old(sequence), nodeId);
      assert clock[..0] == [];
      for i := 0 to |clock|
        invariant sequence == (old(sequence) + i) % WORD64
        invariant ids == RunIds(MillisOf(clock[..i]), old(sequence), nodeId)
      {
        var id := Generate(clock[i]);
        CounterWraps(old(sequence) + i, Millis(clock[i]), nodeId);
        RunGrows(clock, i, old(sequence), nodeId);
        NextCounter(old(sequence), i);
        ids := ids + [id];
      }
      assert clock[..|clock|] == clock;
    }
  }

  /** Milliseconds since the epoch, from nanoseconds; zero when the clock is before it. */
  function Millis(elapsed: Option<nat>): nat {
    if elapsed.Some? then elapsed.value / NANOS else 0
  }

  function MillisOf(clock: seq<Option<nat>>): seq<nat> {
    seq(|clock|, i requires 0 <= i < |clock| => Millis(clock[i]))
  }

  /** The ids of a run that starts with the counter at `start`. */
  function RunIds(times: seq<nat>, start: nat, nodeId: nat): seq<nat> {
    seq(|times|, i requires 0 <= i < |times| => IdOf(times[i], start + i, nodeId))
  }

  lemma NothingRun(start: nat, nodeId: nat)
    ensures RunIds(MillisOf([]), start, nodeId) == []
  {
  }

  lemma RunGrows(clock: seq<Option<nat>>, i: nat, start: nat, nodeId: nat)
    requires i < |clock|
    ensures RunIds(MillisOf(clock[..i + 1]), start, nodeId) ==
            RunIds(MillisOf(clock[..i]), start, nodeId) + [IdOf(Millis(clock[i]), start + i, nodeId)]
  {
    hide IdOf, Millis;
  }

  lemma NextCounter(start: nat, i: nat)
    ensures ((start + i) % WORD64 + 1) % WORD64 == (start + i + 1) % WORD64
  {
  }

  /** Nothing is lost when the counter wraps around its own word. */
  lemma CounterWraps(n: nat, millis: nat, nodeId: nat)
    ensures IdOf(millis, n % WORD64, nodeId) == IdOf(millis, n, nodeId)
  {
    var q, r := n / WORD64, n % WORD64;
    DivIs(n, SEQUENCES, 0x10_0000_0000_0000 * q + r / SEQUENCES, r % SEQUENCES);
  }

  predicate InRange(times: seq<nat>) {
    forall i :: 0 <= i < |times| ==> times[i] < MAX_MILLIS
  }

  predicate Distinct(ids: seq<nat>) {
    forall i, j :: 0 <= i < j < |ids| ==> ids[i] != ids[j]
  }

  /** No two calls read the same millisecond and take counter values with the same low bits. */
  predicate NoSharedSlot(times: seq<nat>) {
    forall i, j :: 0 <= i < j < |times| && times[i] == times[j] ==> (j - i) % SEQUENCES != 0
  }

  /** An id unpacks into what it was made of. */
  lemma Unpack(millis: nat, sequence: nat, nodeId: nat)
    requires millis < 0x800_0000_0000
    ensures var id := IdOf(millis, sequence, nodeId);
            id < WORD64 && id / 2097152 == millis && id / 512 % 4096 == sequence % 4096 && id % 512 == nodeId % 512
  {
    var s, n := sequence % SEQUENCES, nodeId % NODES;
    var id := IdOf(millis, sequence, nodeId);
    DivIs(millis * TICK, WORD64, 0, millis * TICK);
    DivIs(id, TICK, millis, s * NODES + n);
    DivIs(id, NODES, millis * SEQUENCES + s, n);
    DivIs(millis * SEQUENCES + s, SEQUENCES, millis, s);
  }

  /** The millisecond of an id is the one the clock was read in; before the epoch, it is the first. */
  lemma MadeWithin(elapsed: Option<nat>, sequence: nat, nodeId: nat)
    requires elapsed.Some? ==> elapsed.value < 0x800_0000_0000 * 1_000_000
    ensures var millis := IdOf(Millis(elapsed), sequence, nodeId) / 2097152;
            if elapsed.None? then millis == 0
            else millis * 1_000_000 <= elapsed.value < (millis + 1) * 1_000_000
  {
    hide IdOf;
    Unpack(Millis(elapsed), sequence, nodeId);
  }

  lemma SameCounter(a: nat, b: nat)
    requires a < b
    ensures a % SEQUENCES == b % SEQUENCES <==> (b - a) % SEQUENCES == 0
  {
  }

  /** Two calls get the same id exactly when they share a millisecond and a counter value modulo 4096. */
  lemma SameIdIffSameSlot(millis: nat, later: nat, a: nat, b: nat, nodeId: nat)
    requires millis < MAX_MILLIS && later < MAX_MILLIS && a < b
    ensures IdOf(millis, a, nodeId) == IdOf(later, b, nodeId) <==> millis == later && (b - a) % SEQUENCES == 0
  {
    SameCounter(a, b);
    Unpack(millis, a, nodeId);
    Unpack(later, b, nodeId);
  }

  /**
   Whatever the order in which callers read the clock: the ids of a run are distinct exactly when
   no two calls share a millisecond and a counter value modulo 4096.
   */
  lemma RunIsDistinct(times: seq<nat>, start: nat, nodeId: nat)
    requires InRange(times)
    ensures Distinct(RunIds(times, start, nodeId)) <==> NoSharedSlot(times)
  {
    hide IdOf;
    var ids := RunIds(times, start, nodeId);
    forall i, j | 0 <= i < j < |times|
      ensures ids[i] == ids[j] <==> times[i] == times[j] && (j - i) % SEQUENCES == 0
    {
      SameIdIffSameSlot(times[i], times[j], start + i, start + j, nodeId);
    }
  }

  // ---- Callers one after the other --------------------------------------------------------------

  predicate Sorted(times: seq<nat>) {
    forall i, j :: 0 <= i <= j < |times| ==> times[i] <= times[j]
  }

  /** How many calls read the millisecond `t`. */
  function Calls(times: seq<nat>, t: nat): nat {
    if times == [] then 0 else
      var n := |times| - 1;
      Calls(times[..n], t) + if times[n] == t then 1 else 0
  }

  /** No millisecond has more calls than the counter has values. */
  ghost predicate WithinRate(times: seq<nat>) {
    forall t :: Calls(times, t) <= SEQUENCES
  }

  lemma {:induction false} CallsOfBlock(times: seq<nat>, i: nat, j: nat, t: nat)
    requires i <= j < |times| && forall k :: i <= k <= j ==> times[k] == t
    ensures Calls(times, t) >= j - i + 1
    decreases |times|
  {
    var n := |times| - 1;
    if j < n {
      CallsOfBlock(times[..n], i, j, t);
    } else if i < j {
      CallsOfBlock(times[..n], i, j - 1, t);
    }
  }

  /** Calls that read the same millisecond are next to each other. */
  lemma {:induction false} SortedBlock(times: seq<nat>, t: nat) returns (i: nat)
    requires Sorted(times) && Calls(times, t) > 0
    ensures var j := i + Calls(times, t) - 1;
            j < |times| && times[i] == t && times[j] == t
    decreases |times|
  {
    var n := |times| - 1;
    var init := times[..n];
    if times[n] != t {
      i := SortedBlock(init, t);
    } else if Calls(init, t) == 0 {
      i := n;
    } else {
      var k := SortedBlock(init, t);
      i := n + 1 - Calls(times, t);
      assert times[k] <= times[i] <= times[n];
    }
  }

  lemma TooManyShare(times: seq<nat>, t: nat)
    requires Sorted(times) && Calls(times, t) > SEQUENCES
    ensures !NoSharedSlot(times)
  {
    var i := SortedBlock(times, t);
    assert times[i] <= times[i + SEQUENCES] <= times[i + Calls(times, t) - 1];
  }

  lemma RateIsSlots(times: seq<nat>)
    requires Sorted(times)
    ensures WithinRate(times) <==> NoSharedSlot(times)
  {
    if WithinRate(times) {
      forall i, j | 0 <= i < j < |times| && times[i] == times[j]
        ensures (j - i) % SEQUENCES != 0
      {
        CallsOfBlock(times, i, j, times[i]);
      }
    }
    if NoSharedSlot(times) {
      forall t
        ensures Calls(times, t) <= SEQUENCES
      {
        if Calls(times, t) > SEQUENCES {
          TooManyShare(times, t);
        }
      }
    }
  }

  /** While callers do not overlap, ids are distinct exactly when no millisecond has more than 4096 calls. */
  lemma SequentialIsDistinct(times: seq<nat>, start: nat, nodeId: nat)
    requires InRange(times) && Sorted(times)
    ensures Distinct(RunIds(times, start, nodeId)) <==> WithinRate(times)
  {
    hide RunIds, Distinct, NoSharedSlot, WithinRate;
    RunIsDistinct(times, start, nodeId);
    RateIsSlots(times);
  }

  // ---- Concurrent callers -----------------------------------------------------------------------

  type Task = nat

  /** A shared generator: a call first reads the clock, and later takes the counter. */
  datatype Shared = Shared(now: nat, counter: u64, waiting: map<Task, nat>, times: seq<nat>, ids: seq<nat>)

  /** The clock is set, forward or back; a task reads it; a task takes the counter. */
  datatype Event = Tick(now: nat) | Read(task: Task) | Take(task: Task)

  function Step(m: Shared, e: Event, nodeId: nat): Option<Shared> {
    match e
    case Tick(now) => Some(m.(now := now))
    case Read(k) => if k in m.waiting then None else Some(m.(waiting := m.waiting[k := m.now]))
    case Take(k) =>
      if k !in m.waiting then None else
        var millis := m.waiting[k];
        Some(Shared(m.now, (m.counter + 1) % WORD64, m.waiting - {k}, m.times + [millis],
                    m.ids + [IdOf(millis, m.counter, nodeId)]))
  }

  function Exec(m: Shared, events: seq<Event>, nodeId: nat): Option<Shared>
    decreases |events|
  {
    if events == [] then Some(m)
    else
      var r := Step(m, events[0], nodeId);
      if r.None? then None else Exec(r.value, events[1..], nodeId)
  }

  function Idle(now: nat, start: u64): Shared {
    Shared(now, start, map[], [], [])
  }

  /** The ids handed out are those of the times in counter order. */
  ghost predicate Consistent(m: Shared, start: u64, nodeId: nat) {
    m.ids == RunIds(m.times, start, nodeId) && m.counter == (start + |m.times|) % WORD64
  }

  lemma StepConsistent(m: Shared, e: Event, start: u64, nodeId: nat)
    requires Consistent(m, start, nodeId) && Step(m, e, nodeId).Some?
    ensures Consistent(Step(m, e, nodeId).value, start, nodeId)
  {
    hide IdOf;
    if e.Take? {
      CounterWraps(start + |m.times|, m.waiting[e.task], nodeId);
    }
  }

  lemma {:induction false} ExecConsistent(m: Shared, events: seq<Event>, start: u64, nodeId: nat)
    requires Consistent(m, start, nodeId) && Exec(m, events, nodeId).Some?
    ensures Consistent(Exec(m, events, nodeId).value, start, nodeId)
    decreases |events|
  {
    hide Step, Consistent;
    if events != [] {
      StepConsistent(m, events[0], start, nodeId);
      ExecConsistent(Step(m, events[0], nodeId).value, events[1..], start, nodeId);
    }
  }

  /**
   In every interleaving of concurrent calls, however the clock is set in between: ids are distinct
   exactly when no two calls share a slot.
   */
  lemma ConcurrentIsDistinct(now: nat, start: u64, events: seq<Event>, nodeId: nat)
    requires var end := Exec(Idle(now, start), events, nodeId);
             end.Some? && InRange(end.value.times)
    ensures var end := Exec(Idle(now, start), events, nodeId).value;
            Distinct(end.ids) <==> NoSharedSlot(end.times)
  {
    hide Exec, Distinct, NoSharedSlot;
    ExecConsistent(Idle(now, start), events, start, nodeId);
    RunIsDistinct(Exec(Idle(now, start), events, nodeId).value.times, start, nodeId);
  }

  /** The clock is never set back. */
  predicate Forward(now: nat, events: seq<Event>) {
    && (forall i :: 0 <= i < |events| && events[i].Tick? ==> now <= events[i].now)
    && (forall i, j :: 0 <= i < j < |events| && events[i].Tick? && events[j].Tick? ==> events[i].now <= events[j].now)
  }

  /** `n` whole calls by task 0, at the current time. */
  function Burst(n: nat): seq<Event> {
    if n == 0 then [] else [Read(0), Take(0)] + Burst(n - 1)
  }

  lemma {:induction false} BurstHasNoTick(n: nat)
    ensures forall i :: 0 <= i < |Burst(n)| ==> !Burst(n)[i].Tick?
    decreases n
  {
    if n != 0 {
      BurstHasNoTick(n - 1);
    }
  }

  lemma StallIsForward(t: nat)
    ensures Forward(t, Stall(t))
  {
    hide Burst;
    BurstHasNoTick(SEQUENCES - 1);
    assert forall i :: 4 <= i < |Stall(t)| ==> !Stall(t)[i].Tick?;
  }

  lemma {:induction false} BurstRuns(m: Shared, n: nat, nodeId: nat, rest: seq<Event>) returns (m': Shared)
    requires 0 !in m.waiting
    ensures Exec(m, Burst(n) + rest, nodeId) == Exec(m', rest, nodeId)
    ensures m'.now == m.now && m'.waiting == m.waiting && m'.times == m.times + seq(n, _ => m.now)
    decreases n
  {
    hide IdOf;
    if n == 0 {
      m' := m;
      assert Burst(0) + rest == rest && m.times + seq(0, _ => m.now) == m.times;
    } else {
      var m1 := Step(m, Read(0), nodeId).value;
      var m2 := Step(m1, Take(0), nodeId).value;
      assert m2.waiting == m.waiting;
      var all := Burst(n) + rest;
      assert all[0] == Read(0) && all[1..][0] == Take(0) && all[1..][1..] == Burst(n - 1) + rest;
      m' := BurstRuns(m2, n - 1, nodeId, rest);
      assert m.times + [m.now] + seq(n - 1, _ => m.now) == m.times + seq(n, _ => m.now);
    }
  }

  /** A task reads the clock and stalls while the others take the rest of the counter's values. */
  function Stall(t: nat): seq<Event> {
    [Read(0), Take(0), Read(1), Tick(t + 1)] + (Burst(SEQUENCES - 1) + [Take(1)])
  }

  /** The times of that run: two calls read `t`, and the 4095 between them read the next millisecond. */
  function StallTimes(t: nat): seq<nat> {
    [t] + seq(SEQUENCES - 1, _ => t + 1) + [t]
  }

  lemma StallRuns(t: nat, start: u64, nodeId: nat)
    ensures var end := Exec(Idle(t, start), Stall(t), nodeId);
            end.Some? && end.value.times == StallTimes(t)
  {
    hide IdOf, Burst, Exec;
    var m := Idle(t, start);
    var m1 := Step(m, Read(0), nodeId).value;
    var m2 := Step(m1, Take(0), nodeId).value;
    var m3 := Step(m2, Read(1), nodeId).value;
    var m4 := Step(m3, Tick(t + 1), nodeId).value;
    var tail := Burst(SEQUENCES - 1) + [Take(1)];
    var e3 := [Tick(t + 1)] + tail;
    var e2 := [Read(1)] + e3;
    var e1 := [Take(0)] + e2;
    assert Stall(t) == [Read(0)] + e1;
    ExecCons(m, Read(0), e1, nodeId);
    ExecCons(m1, Take(0), e2, nodeId);
    ExecCons(m2, Read(1), e3, nodeId);
    ExecCons(m3, Tick(t + 1), tail, nodeId);
    assert m4.times == [t] && m4.now == t + 1 && m4.waiting == map[1 := t];
    var m5 := BurstRuns(m4, SEQUENCES - 1, nodeId, [Take(1)]);
    assert [Take(1)] == [Take(1)] + [];
    ExecCons(m5, Take(1), [], nodeId);
    ExecNothing(Step(m5, Take(1), nodeId).value, nodeId);
  }

  lemma ExecCons(m: Shared, e: Event, rest: seq<Event>, nodeId: nat)
    ensures var r := Step(m, e, nodeId);
            Exec(m, [e] + rest, nodeId) == if r.None? then None else Exec(r.value, rest, nodeId)
  {
    hide Step;
    assert ([e] + rest)[1..] == rest;
  }

  lemma ExecNothing(m: Shared, nodeId: nat)
    ensures Exec(m, [], nodeId) == Some(m)
  {
  }

  lemma {:induction false} CallsOfRepeat(head: seq<nat>, n: nat, x: nat, t: nat)
    ensures Calls(head + seq(n, _ => x), t) == Calls(head, t) + if x == t then n else 0
    decreases n
  {
    var s := head + seq(n, _ => x);
    if n == 0 {
      assert s == head;
    } else {
      assert s[..|s| - 1] == head + seq(n - 1, _ => x);
      CallsOfRepeat(head, n - 1, x, t);
    }
  }

  /**
   A call that stalls between the clock and the counter gets an id that was already handed out,
   although the clock never went back and no millisecond had more than 4096 calls.
   */
  lemma StalledCallCollides(t: nat, start: u64, nodeId: nat)
    requires t + 1 < MAX_MILLIS
    ensures var end := Exec(Idle(t, start), Stall(t), nodeId);
            Forward(t, Stall(t)) && end.Some? && WithinRate(end.value.times) && !Distinct(end.value.ids)
  {
    hide Exec, Stall;
    StallIsForward(t);
    StallRuns(t, start, nodeId);
    hide Forward;
    var times := StallTimes(t);
    var head := [t] + seq(SEQUENCES - 1, _ => t + 1);
    forall x
      ensures Calls(times, x) <= SEQUENCES
    {
      CallsOfRepeat([t], SEQUENCES - 1, t + 1, x);
      assert times[..SEQUENCES] == head;
      assert Calls([t], x) <= 1 by { assert [t][..0] == []; }
    }
    ExecConsistent(Idle(t, start), Stall(t), start, nodeId);
    RunIsDistinct(times, start, nodeId);
    assert times[0] == times[SEQUENCES];
  }

  /** Ids sort by the millisecond they were made in, whatever the node and the counter. */
  lemma LaterIsLarger(millis: nat, later: nat, s: nat, t: nat, node: nat, other: nat)
    requires millis < later < MAX_MILLIS
    ensures IdOf(millis, s, node) < IdOf(later, t, other)
  {
    hide IdOf;
    Unpack(millis, s, node);
    Unpack(later, t, other);
  }

  /** Nodes whose ids differ in their low nine bits never make the same id. */
  lemma NodesNeverCollide(millis: nat, later: nat, s: nat, t: nat, node: nat, other: nat)
    requires millis < MAX_MILLIS && later < MAX_MILLIS && node % NODES != other % NODES
    ensures IdOf(millis, s, node) != IdOf(later, t, other)
  {
    hide IdOf;
    Unpack(millis, s, node);
    Unpack(later, t, other);
  }

  // ---- Many generators --------------------------------------------------------------------------

  /** A call to one of several generators, at a time. */
  datatype Call = Call(generator: nat, millis: nat)

  /** A generator's node id and the value its counter starts from. */
  datatype Origin = Origin(nodeId: nat, start: nat)

  /** The times of one generator's calls. */
  function TimesOf(calls: seq<Call>, g: nat): seq<nat> {
    if calls == [] then [] else
      var before, last := TimesOf(calls[..|calls| - 1], g), calls[|calls| - 1];
      if last.generator == g then before + [last.millis] else before
  }

  /** The id of a call: its generator's counter has advanced once for each earlier call to it. */
  function CallId(origins: map<nat, Origin>, calls: seq<Call>, i: nat): nat
    requires i < |calls| && calls[i].generator in origins
  {
    var o := origins[calls[i].generator];
    IdOf(calls[i].millis, o.start + |TimesOf(calls[..i], calls[i].generator)|, o.nodeId)
  }

  lemma {:induction false} TimesOfPrefix(calls: seq<Call>, n: nat, g: nat)
    requires n <= |calls|
    ensures TimesOf(calls[..n], g) <= TimesOf(calls, g)
    decreases |calls|
  {
    if n == |calls| {
      assert calls[..n] == calls;
    } else {
      var init := calls[..|calls| - 1];
      TimesOfPrefix(init, n, g);
      assert init[..n] == calls[..n];
    }
  }

  /** The call has its place among its generator's calls, after those made before it. */
  lemma CallHasPlace(calls: seq<Call>, i: nat, n: nat)
    requires i < n <= |calls|
    ensures var g, k := calls[i].generator, |TimesOf(calls[..i], calls[i].generator)|;
            k < |TimesOf(calls[..n], g)| && TimesOf(calls[..n], g)[k] == calls[i].millis
  {
    var g := calls[i].generator;
    var upTo := calls[..i + 1];
    assert upTo[..i] == calls[..i];
    assert TimesOf(upTo, g) == TimesOf(calls[..i], g) + [calls[i].millis];
    assert calls[..n][..i + 1] == upTo;
    TimesOfPrefix(calls[..n], i + 1, g);
  }

  lemma {:induction false} PlaceHasCall(calls: seq<Call>, g: nat, k: nat) returns (i: nat)
    requires k < |TimesOf(calls, g)|
    ensures i < |calls| && calls[i].generator == g && |TimesOf(calls[..i], g)| == k && calls[i].millis == TimesOf(calls, g)[k]
    decreases |calls|
  {
    var n := |calls| - 1;
    var init := calls[..n];
    if k < |TimesOf(init, g)| {
      i := PlaceHasCall(init, g, k);
      assert init[..i] == calls[..i];
    } else {
      i := n;
    }
  }

  /** Every call is to a known generator, at a time that fits an id. */
  ghost predicate WellFormed(origins: map<nat, Origin>, calls: seq<Call>) {
    forall i :: 0 <= i < |calls| ==> calls[i].generator in origins && calls[i].millis < MAX_MILLIS
  }

  ghost predicate NodesDiffer(origins: map<nat, Origin>) {
    forall g, h :: g in origins && h in origins && g != h ==> origins[g].nodeId % NODES != origins[h].nodeId % NODES
  }

  ghost predicate AllDistinct(origins: map<nat, Origin>, calls: seq<Call>)
    requires WellFormed(origins, calls)
  {
    forall i, j :: 0 <= i < j < |calls| ==> CallId(origins, calls, i) != CallId(origins, calls, j)
  }

  lemma PairInCluster(origins: map<nat, Origin>, calls: seq<Call>, i: nat, j: nat)
    requires NodesDiffer(origins) && WellFormed(origins, calls) && i < j < |calls|
    requires forall g <- origins :: NoSharedSlot(TimesOf(calls, g))
    ensures CallId(origins, calls, i) != CallId(origins, calls, j)
  {
    hide IdOf, TimesOf, NoSharedSlot;
    var g, h := calls[i].generator, calls[j].generator;
    var a, b := |TimesOf(calls[..i], g)|, |TimesOf(calls[..j], h)|;
    if g != h {
      NodesNeverCollide(calls[i].millis, calls[j].millis, origins[g].start + a, origins[h].start + b,
                        origins[g].nodeId, origins[h].nodeId);
    } else {
      PlacesDiffer(calls, i, j);
      SameIdIffSameSlot(calls[i].millis, calls[j].millis, origins[g].start + a, origins[g].start + b, origins[g].nodeId);
    }
  }

  /** Two calls to one generator that shares no slots have different times, or places 4096 does not divide. */
  lemma PlacesDiffer(calls: seq<Call>, i: nat, j: nat)
    requires i < j < |calls| && calls[i].generator == calls[j].generator && NoSharedSlot(TimesOf(calls, calls[i].generator))
    ensures var g := calls[i].generator;
            var a, b := |TimesOf(calls[..i], g)|, |TimesOf(calls[..j], g)|;
            a < b && (calls[i].millis != calls[j].millis || (b - a) % SEQUENCES != 0)
  {
    hide TimesOf;
    assert calls[..|calls|] == calls;
    CallHasPlace(calls, i, |calls|);
    CallHasPlace(calls, j, |calls|);
    CallHasPlace(calls, i, j);
  }

  lemma SharedSlotCollides(origins: map<nat, Origin>, calls: seq<Call>, g: nat, a: nat, b: nat)
    requires WellFormed(origins, calls) && g in origins && a < b < |TimesOf(calls, g)|
    requires TimesOf(calls, g)[a] == TimesOf(calls, g)[b] && (b - a) % SEQUENCES == 0
    ensures !AllDistinct(origins, calls)
  {
    hide IdOf, TimesOf;
    var i := PlaceHasCall(calls, g, a);
    var j := PlaceHasCall(calls, g, b);
    SameIdIffSameSlot(calls[i].millis, calls[j].millis, origins[g].start + a, origins[g].start + b, origins[g].nodeId);
    assert CallId(origins, calls, i) == CallId(origins, calls, j);
    assert i < j || j < i;
  }

  /**
   In every interleaving of calls to any number of generators whose node ids differ modulo 512, all
   ids are distinct exactly when no generator has two calls that share a slot.
   */
  lemma ClusterIsDistinct(origins: map<nat, Origin>, calls: seq<Call>)
    requires NodesDiffer(origins) && WellFormed(origins, calls)
    ensures AllDistinct(origins, calls) <==> forall g <- origins :: NoSharedSlot(TimesOf(calls, g))
  {
    hide CallId, TimesOf;
    if forall g <- origins :: NoSharedSlot(TimesOf(calls, g)) {
      forall i, j | 0 <= i < j < |calls|
        ensures CallId(origins, calls, i) != CallId(origins, calls, j)
      {
        PairInCluster(origins, calls, i, j);
      }
    } else {
      var g :| g in origins && !NoSharedSlot(TimesOf(calls, g));
      var times := TimesOf(calls, g);
      var a, b :| 0 <= a < b < |times| && times[a] == times[b] && (b - a) % SEQUENCES == 0;
      SharedSlotCollides(origins, calls, g, a, b);
    }
  }

  // ---- Cutoffs ----------------------------------------------------------------------------------

  /** The smallest id of `period` before `elapsed`, both in nanoseconds since the epoch. */
  function FromDuration(elapsed: nat, period: nat): Option<nat> {
    if period > elapsed then None else Some((elapsed - period) / NANOS * TICK % WORD64)
  }

  function ToTimestamp(id: nat): nat {
    id / TICK / 1000 + DEFAULT_EPOCH
  }

  /**
   There is a cutoff exactly when the period goes back no further than the epoch. An id is below it
   exactly when the clock was read in a millisecond before the one the period starts in.
   */
  lemma CutoffSeparates(made: nat, sequence: nat, nodeId: nat, elapsed: nat, period: nat)
    requires made < 0x800_0000_0000 * 1_000_000 && elapsed < 0x800_0000_0000 * 1_000_000
    ensures FromDuration(elapsed, period).Some? <==> period <= elapsed
    ensures period <= elapsed ==>
              (IdOf(Millis(Some(made)), sequence, nodeId) < FromDuration(elapsed, period).value
               <==> made / 1_000_000 < (elapsed - period) / 1_000_000)
  {
    Unpack(Millis(Some(made)), sequence, nodeId);
    hide IdOf;
    if period <= elapsed {
      var cut := (elapsed - period) / NANOS;
      DivIs(cut * TICK, WORD64, 0, cut * TICK);
    }
  }

  /** The timestamp of an id is the second the clock was read in. */
  lemma TimestampOfId(made: nat, sequence: nat, nodeId: nat)
    requires made < 0x800_0000_0000 * 1_000_000
    ensures ToTimestamp(IdOf(Millis(Some(made)), sequence, nodeId)) == 1632280000 + made / 1_000_000_000
  {
    Unpack(Millis(Some(made)), sequence, nodeId);
    hide IdOf;
    Seconds(made);
  }

  lemma Seconds(nanos: nat)
    ensures nanos / 1_000_000 / 1000 == nanos / 1_000_000_000
  {
  }
}
